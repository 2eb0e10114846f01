/** Canonical order (bench/decoder/harness.c, main): a stable counting sort of the records by
    connection, in the memory behind them. */
module Sorting {
  import opened Bits
  import opened Bytes
  import opened Results
  import opened Stable
  import opened Formatter

  /** The records from word r on, as connections and offsets, up to rec_next. None if a length or a
      connection is out of range. */
  function Scan(mem: seq<u32>, r: nat, next: nat, connections: nat): Option<seq<Keyed<nat>>>
    decreases next - r
  {
    if r >= next then Some([])
    else
      var head := WordAt(mem, r);
      var words := Rem(head, 0x1_0000);
      if words < 2 || r + words > next || High(head) >= connections then None
      else Onto(Keyed(High(head) as nat, r), Scan(mem, r + words, next, connections))
  }

  function Onto(x: Keyed<nat>, xs: Option<seq<Keyed<nat>>>): Option<seq<Keyed<nat>>> {
    match xs
    case None => None
    case Some(rest) => Some([x] + rest)
  }

  /** One turn of a walk over records that are all in range. */
  lemma ScanTurn(mem: seq<u32>, r: nat, next: nat, connections: nat, items: seq<Keyed<nat>>, k: nat)
    requires k <= |items| && Scan(mem, r, next, connections) == Some(items[k..])
    ensures r < next <==> k < |items|
    ensures r < next ==> var head := WordAt(mem, r);
              && 2 <= Rem(head, 0x1_0000) && r + Rem(head, 0x1_0000) <= next
              && items[k].item == r && items[k].key == High(head) < connections
              && Scan(mem, r + Rem(head, 0x1_0000), next, connections) == Some(items[k + 1..])
  {
    if r < next {
      var rest := Scan(mem, r + Rem(WordAt(mem, r), 0x1_0000), next, connections).value;
      assert items[k..] == [Keyed(High(WordAt(mem, r)) as nat, r)] + rest;
      assert items[k] == items[k..][0] && items[k + 1..] == items[k..][1..] == rest;
    }
  }

  lemma {:induction false} ScanInRange(mem: seq<u32>, r: nat, next: nat, connections: nat)
    requires Scan(mem, r, next, connections).Some?
    ensures var items := Scan(mem, r, next, connections).value;
            && KeysIn(items, 0, connections) && 2 * |items| <= (if r < next then next - r else 0)
            && forall i :: 0 <= i < |items| ==> (
                 && items[i].item + 2 <= next
                 && items[i].item + Rem(WordAt(mem, items[i].item), 0x1_0000) <= next)
    decreases next - r
  {
    if r < next {
      ScanInRange(mem, r + Rem(WordAt(mem, r), 0x1_0000), next, connections);
    }
  }

  // ----- Where a stable sort puts each record -----

  /** Where connection c's next record goes, after the first k records. */
  function FrontAt<T>(items: seq<Keyed<T>>, c: nat, k: nat): nat
    requires k <= |items|
  {
    |Groups(items, 0, c)| + |Having(items[..k], c)|
  }

  lemma FrontTurn<T>(items: seq<Keyed<T>>, c: nat, k: nat)
    requires k < |items|
    ensures FrontAt(items, c, k + 1) == FrontAt(items, c, k) + if items[k].key == c then 1 else 0
  {
    HavingTurn(items, k, c);
  }

  lemma PlaceIsRight<T>(items: seq<Keyed<T>>, n: nat, k: nat)
    requires k < |items| && items[k].key < n
    ensures var at := FrontAt(items, items[k].key, k);
            at < |Grouped(items, n)| && Grouped(items, n)[at] == items[k]
  {
    var c := items[k].key;
    GroupSplitsAt(items, n, c);
    HavingSplitsAt(items, k);
    InTheMiddle(Groups(items, 0, c), Having(items[..k], c), items[k], Having(items[k + 1..], c),
                Groups(items, c + 1, n));
  }

  lemma GroupSplitsAt<T>(items: seq<Keyed<T>>, n: nat, c: nat)
    requires c < n
    ensures Grouped(items, n) == Groups(items, 0, c) + (Having(items, c) + Groups(items, c + 1, n))
  {
    GroupsSplit(items, 0, c, n);
    GroupsSplit(items, c, c + 1, n);
    OneGroup(items, c);
  }

  lemma OneGroup<T>(items: seq<Keyed<T>>, c: nat)
    ensures Groups(items, c, c + 1) == Having(items, c)
  {
    assert [] + Having(items, c) == Having(items, c);
  }

  lemma HavingSplitsAt<T>(items: seq<Keyed<T>>, k: nat)
    requires k < |items|
    ensures var c := items[k].key;
            Having(items, c) == (Having(items[..k], c) + [items[k]]) + Having(items[k + 1..], c)
  {
    CutAt(items, k);
    HavingBehind(items[..k], items[k], items[k + 1..]);
  }

  lemma CutAt<T>(items: seq<T>, k: nat)
    requires k < |items|
    ensures items == (items[..k] + [items[k]]) + items[k + 1..]
  {
  }

  lemma HavingBehind<T>(before: seq<Keyed<T>>, x: Keyed<T>, after: seq<Keyed<T>>)
    ensures Having((before + [x]) + after, x.key) == (Having(before, x.key) + [x]) + Having(after, x.key)
  {
    HavingSnoc(before, x, x.key);
    HavingConcat(before + [x], after, x.key);
  }

  lemma InTheMiddle<T>(a: seq<T>, b: seq<T>, x: T, c: seq<T>, d: seq<T>)
    ensures var s := a + (((b + [x]) + c) + d); |a| + |b| < |s| && s[|a| + |b|] == x
  {
  }

  lemma {:induction false} PlaceIsInItsGroup<T>(items: seq<Keyed<T>>, n: nat, i: nat)
    requires i < |Grouped(items, n)|
    ensures var c := Grouped(items, n)[i].key;
            c < n && |Groups(items, 0, c)| <= i < |Groups(items, 0, c)| + |Having(items, c)|
    decreases n
  {
    GroupsKeys(items, 0, n);
    if i < |Grouped(items, n - 1)| {
      PlaceIsInItsGroup(items, n - 1, i);
    } else {
      HavingKeys(items, n - 1);
    }
  }

  // ----- The loops -----

  /** r[0] & 0xFFFF and r[0] >> 16 */
  method FirstWord(w: u32) returns (words: u16, conn: u16)
    ensures words == Rem(w, 0x1_0000) && conn == High(w)
  {
    WordSplits(w);
    words, conn := w % 0x1_0000, w / 0x1_0000;
  }

  /** The first loop: are all records in range, and how many are there? */
  method CountRecords(mem: array<u32>, next: nat, connections: nat) returns (total: Option<nat>)
    requires next <= mem.Length
    ensures match Scan(mem[..next], 0, next, connections)
            case None => total == None
            case Some(items) => total == Some(|items|)
  {
    ghost var s := mem[..next];
    ghost var all := Scan(s, 0, next, connections);
    ghost var found: seq<Keyed<nat>> := [];
    BehindScan(found, all);
    var r, n := 0, 0;
    while r < next
      invariant n == |found|
      invariant all == Behind(found, Scan(s, r, next, connections))
      decreases next - r
    {
      assert WordAt(s, r) == mem[r];
      var words, c := FirstWord(mem[r]);
      if words < 2 || r + words > next || c >= connections {
        return None;
      }
      ghost var x := Keyed(c as nat, r);
      BehindTurn(found, x, Scan(s, r + words, next, connections));
      found := found + [x];
      n := n + 1;
      r := r + words;
    }
    assert found + [] == found;
    total := Some(n);
  }

  function Behind(found: seq<Keyed<nat>>, more: Option<seq<Keyed<nat>>>): Option<seq<Keyed<nat>>> {
    match more
    case None => None
    case Some(rest) => Some(found + rest)
  }

  lemma BehindScan(found: seq<Keyed<nat>>, more: Option<seq<Keyed<nat>>>)
    requires found == []
    ensures Behind(found, more) == more
  {
    if more.Some? { assert found + more.value == more.value; }
  }

  lemma BehindTurn(found: seq<Keyed<nat>>, x: Keyed<nat>, more: Option<seq<Keyed<nat>>>)
    ensures Behind(found, Onto(x, more)) == Behind(found + [x], more)
  {
    if more.Some? { assert found + ([x] + more.value) == (found + [x]) + more.value; }
  }

  /** How many of the first k records each connection has. */
  function Counts<T>(items: seq<Keyed<T>>, n: nat, k: nat): (counts: seq<int>)
    requires k <= |items|
    ensures |counts| == n && forall c :: 0 <= c < n ==> counts[c] == |Having(items[..k], c)|
  {
    seq(n, c requires 0 <= c < n => |Having(items[..k], c)|)
  }

  lemma CountsTurn<T>(items: seq<Keyed<T>>, n: nat, k: nat)
    requires k < |items| && items[k].key < n
    ensures var c := items[k].key;
            && 0 <= Counts(items, n, k)[c] <= k
            && Counts(items, n, k + 1) == Counts(items, n, k)[c := Counts(items, n, k)[c] + 1]
  {
    forall c | 0 <= c < n
      ensures Counts(items, n, k + 1)[c] == Counts(items, n, k)[c] + if items[k].key == c then 1 else 0
    {
      HavingTurn(items, k, c);
    }
    HavingFits(items, k, items[k].key);
  }

  /** The second loop: count[c] = 0. */
  method ClearCounts(mem: array<u32>, next: nat, connections: nat, ghost items: seq<Keyed<nat>>)
    requires next + connections <= mem.Length
    modifies mem
    ensures mem[..next] == old(mem[..next])
    ensures mem[next..next + connections] == Counts(items, connections, 0)
  {
    ghost var s := mem[..next];
    for c := 0 to connections
      invariant mem[..next] == s
      invariant forall d :: next <= d < next + c ==> mem[d] == 0
    {
      mem[next + c] := 0;
    }
  }

  /** The record at r is the next one. */
  lemma ScanNext(s: seq<u32>, r: nat, next: nat, n: nat, items: seq<Keyed<nat>>, k: nat, words: nat, c: nat)
    requires k <= |items| && r < next <= |s| && Scan(s, r, next, n) == Some(items[k..])
    requires words == Rem(s[r], 0x1_0000) && c == High(s[r])
    ensures k < |items| && items[k] == Keyed(c, r) && c < n && 2 <= words && r + words <= next
    ensures Scan(s, r + words, next, n) == Some(items[k + 1..])
  {
    ScanTurn(s, r, next, n, items, k);
    assert WordAt(s, r) == s[r];
  }

  /** count[c] = v */
  method PutCount(mem: array<u32>, next: nat, connections: nat, c: nat, v: u32, ghost counts: seq<int>)
    requires c < connections && next + connections <= mem.Length
    requires mem[next..next + connections] == counts
    modifies mem
    ensures mem[..next] == old(mem[..next])
    ensures mem[next..next + connections] == counts[c := v]
  {
    mem[next + c] := v;
  }

  /** count[c] */
  method GetCount(mem: array<u32>, next: nat, connections: nat, c: nat, ghost counts: seq<int>) returns (v: u32)
    requires c < connections && next + connections <= mem.Length
    requires mem[next..next + connections] == counts
    ensures v == counts[c]
  {
    v := mem[next + c];
    assert v == mem[next..next + connections][c];
  }

  /** The third loop: how many records each connection has. */
  method Tally(mem: array<u32>, next: nat, connections: nat, ghost items: seq<Keyed<nat>>)
    requires next + connections <= mem.Length < 0x1_0000_0000
    requires Scan(mem[..next], 0, next, connections) == Some(items)
    requires mem[next..next + connections] == Counts(items, connections, 0)
    modifies mem
    ensures mem[..next] == old(mem[..next])
    ensures mem[next..next + connections] == Counts(items, connections, |items|)
  {
    ghost var s := mem[..next];
    ScanInRange(s, 0, next, connections);
    var r := 0;
    ghost var k := 0;
    ghost var counts: seq<int> := Counts(items, connections, 0);
    assert items[0..] == items;
    while r < next
      invariant mem[..next] == s && k <= |items| && Scan(s, r, next, connections) == Some(items[k..])
      invariant mem[next..next + connections] == counts == Counts(items, connections, k)
      decreases next - r
    {
      assert s[r] == mem[r];
      var words, c := FirstWord(mem[r]);
      ScanNext(s, r, next, connections, items, k, words, c);
      CountsTurn(items, connections, k);
      var n := GetCount(mem, next, connections, c, counts);
      PutCount(mem, next, connections, c, n + 1, counts);
      counts, k := counts[c := counts[c] + 1], k + 1;
      r := r + words;
    }
    ScanTurn(s, r, next, connections, items, k);
  }

  lemma HavingTurn<T>(items: seq<Keyed<T>>, k: nat, d: nat)
    requires k < |items|
    ensures |Having(items[..k + 1], d)| == |Having(items[..k], d)| + if items[k].key == d then 1 else 0
  {
    HavingSnoc(items[..k], items[k], d);
    assert items[..k + 1] == items[..k] + [items[k]];
  }

  lemma {:induction false} HavingFits<T>(items: seq<Keyed<T>>, k: nat, d: nat)
    requires k <= |items|
    ensures |Having(items[..k], d)| <= k
    decreases k
  {
    if k > 0 {
      HavingFits(items, k - 1, d);
      HavingSnoc(items[..k - 1], items[k - 1], d);
      assert items[..k] == items[..k - 1] + [items[k - 1]];
    }
  }

  /** Where each connection's records start among all of them. */
  function StartsOf<T>(items: seq<Keyed<T>>, n: nat): (starts: seq<int>)
    ensures |starts| == n && forall c :: 0 <= c < n ==> starts[c] == |Groups(items, 0, c)|
  {
    seq(n, c requires 0 <= c < n => |Groups(items, 0, c)|)
  }

  /** The fourth loop: from counts to starts. */
  method Starts(mem: array<u32>, next: nat, connections: nat, ghost items: seq<Keyed<nat>>)
    requires next + connections <= mem.Length < 0x1_0000_0000 && |items| <= mem.Length
    requires KeysIn(items, 0, connections)
    requires mem[next..next + connections] == Counts(items, connections, |items|)
    modifies mem
    ensures mem[..next] == old(mem[..next])
    ensures mem[next..next + connections] == StartsOf(items, connections)
  {
    ghost var s, counts, starts := mem[..next], Counts(items, connections, |items|), StartsOf(items, connections);
    ghost var region: seq<int> := counts;
    var start := 0;
    for c := 0 to connections
      invariant mem[..next] == s && start == |Groups(items, 0, c)|
      invariant mem[next..next + connections] == region && region == starts[..c] + counts[c..]
    {
      GroupsFit(items, c, connections);
      GroupsFit(items, c + 1, connections);
      StartTurn(items, connections, c, counts, starts);
      MixedTurn(starts, counts, c, region);
      var n := GetCount(mem, next, connections, c, region);
      PutCount(mem, next, connections, c, start, region);
      region := region[c := start];
      start := start + n;
    }
  }

  lemma StartTurn<T>(items: seq<Keyed<T>>, n: nat, c: nat, counts: seq<int>, starts: seq<int>)
    requires c < n && counts == Counts(items, n, |items|) && starts == StartsOf(items, n)
    ensures starts[c] == |Groups(items, 0, c)| && starts[c] + counts[c] == |Groups(items, 0, c + 1)|
  {
    assert items[..|items|] == items;
  }

  /** A region of which the first part is rewritten. */
  lemma MixedTurn<T>(a: seq<T>, b: seq<T>, c: nat, region: seq<T>)
    requires |a| == |b| && c < |a| && region == a[..c] + b[c..]
    ensures |region| == |a| && region[c] == b[c] && region[c := a[c]] == a[..c + 1] + b[c + 1..]
  {
  }

  lemma GroupsFit<T>(items: seq<Keyed<T>>, c: nat, n: nat)
    requires c <= n && KeysIn(items, 0, n)
    ensures |Groups(items, 0, c)| <= |Grouped(items, n)| == |items|
  {
    GroupsSplit(items, 0, c, n);
    GroupedIsAPermutation(items, n);
    assert |multiset(Grouped(items, n))| == |multiset(items)|;
  }

  /** Whether the record that belongs at i is among the first k. */
  ghost predicate Filled<T>(items: seq<Keyed<T>>, n: nat, k: nat, i: nat)
    requires k <= |items| && i < |Grouped(items, n)|
  {
    i < FrontAt(items, Grouped(items, n)[i].key, k)
  }

  lemma FillTurn<T>(items: seq<Keyed<T>>, n: nat, k: nat, i: nat)
    requires k < |items| && items[k].key < n && i < |Grouped(items, n)|
    ensures Filled(items, n, k + 1, i) <==> (Filled(items, n, k, i) || i == FrontAt(items, items[k].key, k))
  {
    FrontTurn(items, Grouped(items, n)[i].key, k);
    PlaceIsRight(items, n, k);
  }

  /** Where each connection's next record goes, after the first k. */
  function Fronts<T>(items: seq<Keyed<T>>, n: nat, k: nat): (fronts: seq<int>)
    requires k <= |items|
    ensures |fronts| == n && forall c :: 0 <= c < n ==> fronts[c] == FrontAt(items, c, k)
  {
    seq(n, c requires 0 <= c < n => FrontAt(items, c, k))
  }

  lemma FrontsTurn<T>(items: seq<Keyed<T>>, n: nat, k: nat)
    requires k < |items| && items[k].key < n
    ensures var c := items[k].key;
            Fronts(items, n, k + 1) == Fronts(items, n, k)[c := Fronts(items, n, k)[c] + 1]
  {
    forall c | 0 <= c < n
      ensures Fronts(items, n, k + 1)[c] == Fronts(items, n, k)[c] + if items[k].key == c then 1 else 0
    {
      FrontTurn(items, c, k);
    }
  }

  function ItemsOf<T>(xs: seq<Keyed<T>>): (items: seq<T>)
    ensures |items| == |xs| && forall i :: 0 <= i < |xs| ==> items[i] == xs[i].item
  {
    seq(|xs|, i requires 0 <= i < |xs| => xs[i].item)
  }

  /** The places that the first k records belong in hold them. */
  ghost predicate Indexed(items: seq<Keyed<nat>>, n: nat, k: nat, index: seq<int>)
    requires k <= |items|
  {
    && |index| == |Grouped(items, n)|
    && forall i :: 0 <= i < |index| ==> (Filled(items, n, k, i) ==> index[i] == Grouped(items, n)[i].item)
  }

  lemma IndexedTurn(items: seq<Keyed<nat>>, n: nat, k: nat, index: seq<int>, at: nat)
    requires k < |items| && items[k].key < n && Indexed(items, n, k, index)
    requires at == FrontAt(items, items[k].key, k)
    ensures at < |index| && Indexed(items, n, k + 1, index[at := items[k].item])
  {
    PlaceIsRight(items, n, k);
    var after := index[at := items[k].item];
    forall i | 0 <= i < |after| && Filled(items, n, k + 1, i) ensures after[i] == Grouped(items, n)[i].item {
      FillTurn(items, n, k, i);
    }
  }

  lemma NothingIndexed(items: seq<Keyed<nat>>, n: nat, index: seq<int>)
    requires |index| == |Grouped(items, n)|
    ensures Indexed(items, n, 0, index) && Fronts(items, n, 0) == StartsOf(items, n)
  {
    forall i | 0 <= i < |index| ensures !Filled(items, n, 0, i) {
      PlaceIsInItsGroup(items, n, i);
    }
  }

  lemma AllIndexed(items: seq<Keyed<nat>>, n: nat, index: seq<int>)
    requires Indexed(items, n, |items|, index)
    ensures index == ItemsOf(Grouped(items, n))
  {
    forall i | 0 <= i < |index| ensures Filled(items, n, |items|, i) {
      PlaceIsInItsGroup(items, n, i);
      assert items[..|items|] == items;
    }
  }

  /** index[count[c]++] = r */
  method Place(mem: array<u32>, next: nat, first: nat, total: nat, c: nat, r: u32,
               ghost fronts: seq<int>, ghost index: seq<int>)
    requires next + c < first && first + total <= mem.Length < 0x1_0000_0000
    requires mem[next..first] == fronts && mem[first..first + total] == index && 0 <= fronts[c] < total
    modifies mem
    ensures mem[..next] == old(mem[..next])
    ensures mem[next..first] == fronts[c := fronts[c] + 1]
    ensures mem[first..first + total] == index[fronts[c] := r]
  {
    var at := mem[next + c];
    assert at == mem[next..first][c];
    mem[first + at] := r;
    mem[next + c] := at + 1;
  }

  /** The counts and the index after k records. */
  ghost predicate FilledTo(items: seq<Keyed<nat>>, n: nat, k: nat, fronts: seq<int>, index: seq<int>)
    requires k <= |items|
  {
    fronts == Fronts(items, n, k) && Indexed(items, n, k, index)
  }

  lemma FilledTurn(items: seq<Keyed<nat>>, n: nat, k: nat, fronts: seq<int>, index: seq<int>)
    requires k < |items| && items[k].key < n && FilledTo(items, n, k, fronts, index)
    ensures var c := items[k].key;
            && 0 <= fronts[c] < |index|
            && FilledTo(items, n, k + 1, fronts[c := fronts[c] + 1], index[fronts[c] := items[k].item])
  {
    FrontsTurn(items, n, k);
    IndexedTurn(items, n, k, index, fronts[items[k].key]);
  }

  /** One turn of the last loop: where the next record starts. */
  method PlaceOne(mem: array<u32>, next: nat, first: nat, total: nat, connections: nat, r: nat,
                  ghost items: seq<Keyed<nat>>, ghost k: nat, ghost fronts: seq<int>, ghost index: seq<int>)
    returns (after: nat, ghost fronts': seq<int>, ghost index': seq<int>)
    requires r < next && first == next + connections && first + total <= mem.Length < 0x1_0000_0000
    requires mem[next..first] == fronts && mem[first..first + total] == index
    requires k <= |items| && Scan(mem[..next], r, next, connections) == Some(items[k..])
    requires FilledTo(items, connections, k, fronts, index) == true
    modifies mem
    ensures mem[..next] == old(mem[..next]) && mem[next..first] == fronts' && mem[first..first + total] == index'
    ensures k < |items| && r < after && Scan(mem[..next], after, next, connections) == Some(items[k + 1..])
    ensures FilledTo(items, connections, k + 1, fronts', index') == true
  {
    ghost var s := mem[..next];
    assert s[r] == mem[r];
    var words, c := FirstWord(mem[r]);
    ScanNext(s, r, next, connections, items, k, words, c);
    FilledTurn(items, connections, k, fronts, index);
    Place(mem, next, first, total, c, r, fronts, index);
    fronts', index' := fronts[c := fronts[c] + 1], index[fronts[c] := r];
    after := r + words;
  }

  /** The last loop: each record's offset goes to its connection's front. */
  method Fill(mem: array<u32>, next: nat, connections: nat, total: nat, ghost items: seq<Keyed<nat>>)
    requires next + connections + total <= mem.Length < 0x1_0000_0000
    requires Scan(mem[..next], 0, next, connections) == Some(items)
    requires total == |items| == |Grouped(items, connections)|
    requires mem[next..next + connections] == StartsOf(items, connections)
    modifies mem
    ensures mem[..next] == old(mem[..next])
    ensures mem[next + connections..next + connections + total] == ItemsOf(Grouped(items, connections))
  {
    var r, first := 0, next + connections;
    ghost var s, k := mem[..next], 0;
    ghost var fronts: seq<int>, index: seq<int> := mem[next..first], mem[first..first + total];
    NothingFilled(items, connections, fronts, index);
    while r < next
      invariant mem[..next] == s && mem[next..first] == fronts && mem[first..first + total] == index
      invariant k <= |items| && Scan(s, r, next, connections) == Some(items[k..])
      invariant FilledTo(items, connections, k, fronts, index) == true
      decreases |items| - k
    {
      r, fronts, index := PlaceOne(mem, next, first, total, connections, r, items, k, fronts, index);
      k := k + 1;
    }
    AllFilled(s, r, next, connections, items, k, fronts, index);
  }

  lemma NothingFilled(items: seq<Keyed<nat>>, n: nat, fronts: seq<int>, index: seq<int>)
    requires fronts == StartsOf(items, n) && |index| == |Grouped(items, n)|
    ensures items[0..] == items && FilledTo(items, n, 0, fronts, index) == true
  {
    NothingIndexed(items, n, index);
  }

  lemma AllFilled(s: seq<u32>, r: nat, next: nat, n: nat, items: seq<Keyed<nat>>, k: nat,
                  fronts: seq<int>, index: seq<int>)
    requires next <= r && next <= |s| && k <= |items| && Scan(s, r, next, n) == Some(items[k..])
    requires FilledTo(items, n, k, fronts, index)
    ensures index == ItemsOf(Grouped(items, n))
  {
    ScanTurn(s, r, next, n, items, k);
    AllIndexed(items, n, index);
  }

  datatype Unsorted = OutOfRange | NoRoom

  /** The records in canonical order: their number, with their offsets behind the counts; or why not. */
  method SortRecords(mem: array<u32>, next: nat, connections: nat) returns (r: Result<nat, Unsorted>)
    requires next <= mem.Length < 0x1_0000_0000
    modifies mem
    ensures mem[..next] == old(mem[..next])
    ensures match Scan(mem[..next], 0, next, connections)
            case None => r == Err(OutOfRange)
            case Some(items) =>
              if mem.Length < next + connections + |items| then r == Err(NoRoom)
              else r == Ok(|items|)
                   && mem[next + connections..next + connections + |items|] == ItemsOf(Grouped(items, connections))
  {
    var total := CountRecords(mem, next, connections);
    if total.None? {
      return Err(OutOfRange);
    }
    if mem.Length < next + connections + total.value {
      return Err(NoRoom);
    }
    ghost var s := mem[..next];
    ghost var items := Scan(s, 0, next, connections).value;
    ScanInRange(s, 0, next, connections);
    GroupsFit(items, 0, connections);
    ClearCounts(mem, next, connections, items);
    Tally(mem, next, connections, items);
    Starts(mem, next, connections, items);
    Fill(mem, next, connections, total.value, items);
    r := Ok(total.value);
  }
}
