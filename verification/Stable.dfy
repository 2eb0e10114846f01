/** Stable sorting by a small key: the groups of equal keys in ascending order, each in its first order. */
module Stable {
  import opened Sequences

  datatype Keyed<+T> = Keyed(key: nat, item: T)

  /** The elements with key k, in order. */
  function Having<T>(xs: seq<Keyed<T>>, k: nat): seq<Keyed<T>> {
    if xs == [] then []
    else Having(xs[..|xs| - 1], k) + if xs[|xs| - 1].key == k then [xs[|xs| - 1]] else []
  }

  /** The groups with keys from a up to n. */
  function Groups<T>(xs: seq<Keyed<T>>, a: nat, n: nat): seq<Keyed<T>> {
    if n <= a then [] else Groups(xs, a, n - 1) + Having(xs, n - 1)
  }

  ghost predicate KeysIn<T>(xs: seq<Keyed<T>>, a: nat, n: nat) {
    forall i :: 0 <= i < |xs| ==> a <= xs[i].key < n
  }

  /** All elements, by key. */
  function Grouped<T>(xs: seq<Keyed<T>>, n: nat): seq<Keyed<T>> {
    Groups(xs, 0, n)
  }

  lemma HavingSnoc<T>(xs: seq<Keyed<T>>, x: Keyed<T>, k: nat)
    ensures Having(xs + [x], k) == if x.key == k then Having(xs, k) + [x] else Having(xs, k)
  {
    assert (xs + [x])[..|xs|] == xs;
  }

  lemma {:induction false} HavingConcat<T>(xs: seq<Keyed<T>>, ys: seq<Keyed<T>>, k: nat)
    ensures Having(xs + ys, k) == Having(xs, k) + Having(ys, k)
    decreases |ys|
  {
    if ys == [] {
      assert xs + ys == xs;
    } else {
      var n := |ys| - 1;
      HavingConcat(xs, ys[..n], k);
      HavingSnoc(xs + ys[..n], ys[n], k);
      InARow(xs, ys[..n], [ys[n]]);
      assert ys[..n] + [ys[n]] == ys;
      InARow(Having(xs, k), Having(ys[..n], k), if ys[n].key == k then [ys[n]] else []);
      NothingBehind(Having(xs + ys[..n], k));
    }
  }

  lemma {:induction false} HavingKeys<T>(xs: seq<Keyed<T>>, k: nat)
    ensures forall i :: 0 <= i < |Having(xs, k)| ==> Having(xs, k)[i].key == k && Having(xs, k)[i] in xs
  {
    if xs != [] {
      HavingKeys(xs[..|xs| - 1], k);
    }
  }

  lemma {:induction false} GroupsKeys<T>(xs: seq<Keyed<T>>, a: nat, n: nat)
    ensures KeysIn(Groups(xs, a, n), a, n)
    ensures forall x :: x in Groups(xs, a, n) ==> x in xs
    decreases n
  {
    if a < n {
      GroupsKeys(xs, a, n - 1);
      HavingKeys(xs, n - 1);
    }
  }

  lemma {:induction false} GroupsSplit<T>(xs: seq<Keyed<T>>, a: nat, b: nat, n: nat)
    requires a <= b <= n
    ensures Groups(xs, a, n) == Groups(xs, a, b) + Groups(xs, b, n)
    decreases n
  {
    if b < n {
      GroupsSplit(xs, a, b, n - 1);
      InARow(Groups(xs, a, b), Groups(xs, b, n - 1), Having(xs, n - 1));
    } else {
      assert Groups(xs, b, n) == [];
    }
  }

  lemma {:induction false} SameGroups<T>(xs: seq<Keyed<T>>, ys: seq<Keyed<T>>, a: nat, n: nat)
    requires forall k :: a <= k < n ==> Having(xs, k) == Having(ys, k)
    ensures Groups(xs, a, n) == Groups(ys, a, n)
    decreases n
  {
    if a < n {
      SameGroups(xs, ys, a, n - 1);
    }
  }

  /** An element of another group moves none of these. */
  lemma GroupsSnocOutside<T>(xs: seq<Keyed<T>>, x: Keyed<T>, a: nat, n: nat)
    requires x.key < a || n <= x.key
    ensures Groups(xs + [x], a, n) == Groups(xs, a, n)
  {
    forall k | a <= k < n ensures Having(xs + [x], k) == Having(xs, k) {
      HavingSnoc(xs, x, k);
    }
    SameGroups(xs + [x], xs, a, n);
  }

  /** An element goes behind its own group, and moves no other. */
  lemma {:induction false} GroupsSnoc<T>(xs: seq<Keyed<T>>, x: Keyed<T>, a: nat, n: nat)
    requires a <= x.key < n
    ensures Groups(xs + [x], a, n) == Groups(xs, a, x.key + 1) + [x] + Groups(xs, x.key + 1, n)
    decreases n
  {
    HavingSnoc(xs, x, n - 1);
    if x.key == n - 1 {
      GroupsSnocOutside(xs, x, a, n - 1);
      InARow(Groups(xs, a, n - 1), Having(xs, n - 1), [x]);
      NothingBehind(Groups(xs, a, n) + [x]);
    } else {
      GroupsSnoc(xs, x, a, n - 1);
      InARow(Groups(xs, a, x.key + 1) + [x], Groups(xs, x.key + 1, n - 1), Having(xs, n - 1));
    }
  }

  lemma NothingBehind<T>(a: seq<T>)
    ensures a + [] == a
  {
  }

  /** The place that insertion finds: before every greater key, behind every other. */
  lemma InsertedIsGrouped<T>(xs: seq<Keyed<T>>, x: Keyed<T>, n: nat, j: nat)
    requires x.key < n && j <= |Grouped(xs, n)|
    requires j > 0 ==> Grouped(xs, n)[j - 1].key <= x.key
    requires j < |Grouped(xs, n)| ==> x.key < Grouped(xs, n)[j].key
    ensures Grouped(xs + [x], n) == Grouped(xs, n)[..j] + [x] + Grouped(xs, n)[j..]
  {
    var low, high := Groups(xs, 0, x.key + 1), Groups(xs, x.key + 1, n);
    GroupsSplit(xs, 0, x.key + 1, n);
    GroupsSnoc(xs, x, 0, n);
    GroupsKeys(xs, 0, x.key + 1);
    GroupsKeys(xs, x.key + 1, n);
    InsertedBetween(Grouped(xs, n), low, high, x, n, j);
  }

  lemma InsertedBetween<T>(all: seq<Keyed<T>>, low: seq<Keyed<T>>, high: seq<Keyed<T>>, x: Keyed<T>, n: nat, j: nat)
    requires all == low + high && KeysIn(low, 0, x.key + 1) == true && KeysIn(high, x.key + 1, n) == true
    requires j <= |all| && (j > 0 ==> all[j - 1].key <= x.key) && (j < |all| ==> x.key < all[j].key)
    ensures all[..j] + [x] + all[j..] == low + [x] + high
  {
    Boundary(low, high, x.key, n, j);
    CutAt(low, high);
  }

  lemma CutAt<T>(a: seq<T>, b: seq<T>)
    ensures (a + b)[..|a|] == a && (a + b)[|a|..] == b
  {
  }

  lemma Boundary<T>(low: seq<Keyed<T>>, high: seq<Keyed<T>>, k: nat, n: nat, j: nat)
    requires KeysIn(low, 0, k + 1) && KeysIn(high, k + 1, n) && j <= |low + high|
    requires j > 0 ==> (low + high)[j - 1].key <= k
    requires j < |low + high| ==> k < (low + high)[j].key
    ensures j == |low|
  {
  }

  lemma {:induction false} GroupsOfNone<T>(a: nat, n: nat)
    ensures Groups<T>([], a, n) == []
    decreases n
  {
    if a < n {
      GroupsOfNone<T>(a, n - 1);
    }
  }

  lemma {:induction false} HavingOfHaving<T>(xs: seq<Keyed<T>>, m: nat, k: nat)
    ensures Having(Having(xs, m), k) == if m == k then Having(xs, k) else []
  {
    if xs != [] {
      var rest, x := xs[..|xs| - 1], xs[|xs| - 1];
      HavingOfHaving(rest, m, k);
      HavingSnoc(Having(rest, m), x, k);
      assert rest + [x] == xs;
      HavingSnoc(rest, x, m);
      HavingSnoc(rest, x, k);
    }
  }

  lemma {:induction false} HavingOfGroups<T>(xs: seq<Keyed<T>>, a: nat, n: nat, k: nat)
    ensures Having(Groups(xs, a, n), k) == if a <= k < n then Having(xs, k) else []
    decreases n
  {
    if a < n {
      var groups, last := Groups(xs, a, n - 1), Having(xs, n - 1);
      HavingOfGroups(xs, a, n - 1, k);
      HavingOfHaving(xs, n - 1, k);
      HavingConcat(groups, last, k);
      if k == n - 1 {
        NothingBefore(Having(xs, k));
      } else {
        NothingBehind(Having(groups, k));
      }
    }
  }

  lemma NothingBefore<T>(a: seq<T>)
    ensures [] + a == a
  {
  }

  lemma {:induction false} GroupsAscend<T>(xs: seq<Keyed<T>>, a: nat, n: nat)
    ensures forall i, j :: 0 <= i < j < |Groups(xs, a, n)| ==> Groups(xs, a, n)[i].key <= Groups(xs, a, n)[j].key
    decreases n
  {
    if a < n {
      GroupsAscend(xs, a, n - 1);
      GroupsKeys(xs, a, n - 1);
      HavingKeys(xs, n - 1);
    }
  }

  lemma {:induction false} NoneHere<T>(xs: seq<Keyed<T>>, n: nat, k: nat)
    requires KeysIn(xs, 0, n) && n <= k
    ensures Having(xs, k) == []
  {
    if xs != [] {
      NoneHere(xs[..|xs| - 1], n, k);
    }
  }

  lemma {:induction false} GroupedIsAPermutation<T>(xs: seq<Keyed<T>>, n: nat)
    requires KeysIn(xs, 0, n)
    ensures multiset(Grouped(xs, n)) == multiset(xs)
    decreases |xs|
  {
    if xs == [] {
      GroupsKeys(xs, 0, n);
      assert forall i :: 0 <= i < |Grouped(xs, n)| ==> Grouped(xs, n)[i] in xs;
    } else {
      var rest, x := xs[..|xs| - 1], xs[|xs| - 1];
      assert rest + [x] == xs;
      GroupedIsAPermutation(rest, n);
      GroupsSplit(rest, 0, x.key + 1, n);
      GroupsSnoc(rest, x, 0, n);
    }
  }

  /** Grouped is the stable sort: a permutation, by ascending keys, with the elements of each key as
      they came. */
  lemma GroupedIsTheStableSort<T>(xs: seq<Keyed<T>>, n: nat)
    requires KeysIn(xs, 0, n)
    ensures multiset(Grouped(xs, n)) == multiset(xs)
    ensures forall i, j :: 0 <= i < j < |Grouped(xs, n)| ==> Grouped(xs, n)[i].key <= Grouped(xs, n)[j].key
    ensures forall k :: Having(Grouped(xs, n), k) == Having(xs, k)
  {
    GroupedIsAPermutation(xs, n);
    GroupsAscend(xs, 0, n);
    forall k: nat ensures Having(Grouped(xs, n), k) == Having(xs, k) {
      HavingOfGroups(xs, 0, n, k);
      if n <= k { NoneHere(xs, n, k); }
    }
  }

  /** Nothing else is one. */
  lemma {:induction false} OnlyOneStableSort<T>(xs: seq<Keyed<T>>, ys: seq<Keyed<T>>)
    requires forall i, j :: 0 <= i < j < |xs| ==> xs[i].key <= xs[j].key
    requires forall i, j :: 0 <= i < j < |ys| ==> ys[i].key <= ys[j].key
    requires forall k :: Having(xs, k) == Having(ys, k)
    ensures xs == ys
    decreases |xs| + |ys|
  {
    if xs == [] && ys == [] {
    } else {
      if ys == [] || (xs != [] && ys[|ys| - 1].key <= xs[|xs| - 1].key) {
        SameLast(xs, ys);
      } else {
        SameLast(ys, xs);
      }
      var x := xs[|xs| - 1];
      assert xs == xs[..|xs| - 1] + [x] && ys == ys[..|ys| - 1] + [x];
      var xs', ys' := xs[..|xs| - 1], ys[..|ys| - 1];
      forall k: nat ensures Having(xs', k) == Having(ys', k) {
        HavingSnoc(xs', x, k);
        HavingSnoc(ys', x, k);
        if x.key == k {
          assert (Having(xs', k) + [x])[..|Having(xs', k)|] == Having(xs', k);
          assert (Having(ys', k) + [x])[..|Having(ys', k)|] == Having(ys', k);
        }
        assert Having(xs, k) == Having(ys, k);
      }
      OnlyOneStableSort(xs', ys');
    }
  }

  lemma SameLast<T>(xs: seq<Keyed<T>>, ys: seq<Keyed<T>>)
    requires xs != [] && (ys == [] || ys[|ys| - 1].key <= xs[|xs| - 1].key)
    requires forall i, j :: 0 <= i < j < |ys| ==> ys[i].key <= ys[j].key
    requires forall k :: Having(xs, k) == Having(ys, k)
    ensures ys != [] && xs[|xs| - 1] == ys[|ys| - 1]
  {
    var x := xs[|xs| - 1];
    LastHaving(xs);
    SomeHaving(ys, x.key);
    LastHaving(ys);
    SameEnds(Having(xs[..|xs| - 1], x.key), x, Having(ys[..|ys| - 1], x.key), ys[|ys| - 1]);
  }

  lemma LastHaving<T>(xs: seq<Keyed<T>>)
    requires xs != []
    ensures var x := xs[|xs| - 1]; Having(xs, x.key) == Having(xs[..|xs| - 1], x.key) + [x]
  {
  }

  lemma SomeHaving<T>(ys: seq<Keyed<T>>, k: nat)
    requires Having(ys, k) != [] && (ys == [] || ys[|ys| - 1].key <= k)
    requires forall i, j :: 0 <= i < j < |ys| ==> ys[i].key <= ys[j].key
    ensures ys != [] && ys[|ys| - 1].key == k
  {
    HavingKeys(ys, k);
    var i :| 0 <= i < |ys| && ys[i] == Having(ys, k)[0];
  }

  lemma SameEnds<T>(a: seq<T>, x: T, b: seq<T>, y: T)
    requires a + [x] == b + [y]
    ensures x == y
  {
    assert (a + [x])[|a|] == x && (b + [y])[|b|] == y;
  }

  // ----- Sorting and mapping -----

  function Mapped<T, U>(xs: seq<Keyed<T>>, g: T -> U): (ys: seq<Keyed<U>>)
    ensures |ys| == |xs|
    ensures forall i :: 0 <= i < |xs| ==> ys[i] == Keyed(xs[i].key, g(xs[i].item))
  {
    seq(|xs|, i requires 0 <= i < |xs| => Keyed(xs[i].key, g(xs[i].item)))
  }

  lemma MappedConcat<T, U>(xs: seq<Keyed<T>>, ys: seq<Keyed<T>>, g: T -> U)
    ensures Mapped(xs + ys, g) == Mapped(xs, g) + Mapped(ys, g)
  {
  }

  lemma {:induction false} MappedHaving<T, U>(xs: seq<Keyed<T>>, g: T -> U, k: nat)
    ensures Mapped(Having(xs, k), g) == Having(Mapped(xs, g), k)
    decreases |xs|
  {
    if xs != [] {
      var rest, x := xs[..|xs| - 1], xs[|xs| - 1];
      MappedHaving(rest, g, k);
      MappedConcat(Having(rest, k), [x], g);
      assert Mapped(xs, g)[..|xs| - 1] == Mapped(rest, g);
      assert Mapped([x], g) == [Keyed(x.key, g(x.item))];
    }
  }

  /** Changing the items moves none of them. */
  lemma {:induction false} MappedGroups<T, U>(xs: seq<Keyed<T>>, g: T -> U, a: nat, n: nat)
    ensures Mapped(Groups(xs, a, n), g) == Groups(Mapped(xs, g), a, n)
    decreases n
  {
    if a < n {
      MappedGroups(xs, g, a, n - 1);
      MappedHaving(xs, g, n - 1);
      MappedConcat(Groups(xs, a, n - 1), Having(xs, n - 1), g);
    }
  }

  function Joined(xs: seq<Keyed<string>>): string {
    if xs == [] then "" else Joined(xs[..|xs| - 1]) + xs[|xs| - 1].item
  }
}
