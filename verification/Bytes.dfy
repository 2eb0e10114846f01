/** Integers as strings of bytes, in both orders. */
module Bytes {
  import opened Bits

  type u16 = x: int | 0 <= x < 0x1_0000
  type u32 = x: int | 0 <= x < 0x1_0000_0000
  type u64 = x: int | 0 <= x < 0x1_0000_0000_0000_0000

  function Pow256(k: nat): (p: nat)
    ensures p > 0
  {
    if k == 0 then 1 else 256 * Pow256(k - 1)
  }

  lemma Pow256Values()
    ensures Pow256(1) == 0x100 && Pow256(2) == 0x1_0000
    ensures Pow256(3) == 0x100_0000 && Pow256(4) == 0x1_0000_0000
  {
  }

  /** n.to_bytes(k, "little"), for a number that fits. */
  function ToLe(n: nat, k: nat): (s: seq<byte>)
    requires n < Pow256(k)
    ensures |s| == k
  {
    if k == 0 then [] else [n % 256] + ToLe(n / 256, k - 1)
  }

  /** int.from_bytes(s, "little") */
  function FromLe(s: seq<byte>): nat {
    if s == [] then 0 else s[0] + 256 * FromLe(s[1..])
  }

  lemma {:induction false} FromToLe(n: nat, k: nat)
    requires n < Pow256(k)
    ensures FromLe(ToLe(n, k)) == n
    decreases k
  {
    if k > 0 {
      FromToLe(n / 256, k - 1);
      assert ToLe(n, k)[1..] == ToLe(n / 256, k - 1);
    }
  }

  lemma {:induction false} ToFromLe(s: seq<byte>)
    ensures FromLe(s) < Pow256(|s|)
    ensures ToLe(FromLe(s), |s|) == s
  {
    if s != [] {
      ToFromLe(s[1..]);
      assert FromLe(s) / 256 == FromLe(s[1..]) && FromLe(s) % 256 == s[0];
    }
  }

  /** n.to_bytes(k, "big"), for a number that fits. */
  function ToBe(n: nat, k: nat): (s: seq<byte>)
    requires n < Pow256(k)
    ensures |s| == k
  {
    if k == 0 then [] else ToBe(n / 256, k - 1) + [n % 256]
  }

  /** int.from_bytes(s, "big") */
  function FromBe(s: seq<byte>): nat {
    if s == [] then 0 else 256 * FromBe(s[..|s| - 1]) + s[|s| - 1]
  }

  lemma {:induction false} FromToBe(n: nat, k: nat)
    requires n < Pow256(k)
    ensures FromBe(ToBe(n, k)) == n
    decreases k
  {
    if k > 0 {
      FromToBe(n / 256, k - 1);
      assert ToBe(n, k)[..k - 1] == ToBe(n / 256, k - 1);
    }
  }

  lemma {:induction false} ToFromBe(s: seq<byte>)
    ensures FromBe(s) < Pow256(|s|)
    ensures ToBe(FromBe(s), |s|) == s
  {
    if s != [] {
      ToFromBe(s[..|s| - 1]);
      assert FromBe(s) / 256 == FromBe(s[..|s| - 1]) && FromBe(s) % 256 == s[|s| - 1];
    }
  }

  /** bytes(n): n zero bytes. */
  function Zeros(n: nat): (s: seq<byte>)
    ensures |s| == n && forall i :: 0 <= i < n ==> s[i] == 0
  {
    seq(n, _ => 0)
  }

  /** s[i:j], cut off at the end of s as Python does. */
  function Cut(s: seq<byte>, i: nat, j: int): seq<byte> {
    var e := if j < |s| then j else |s|;
    if i <= e then s[i..e] else []
  }

  /** Two parts in a row. */
  lemma Ends<T>(d: seq<T>, i: nat, a: seq<T>, b: seq<T>)
    requires i + |a| + |b| <= |d|
    ensures d[i..i + |a| + |b|] == a + b <==> (d[i..i + |a|] == a && d[i + |a|..i + |a| + |b|] == b)
  {
    var both := d[i..i + |a| + |b|];
    assert both == d[i..i + |a|] + d[i + |a|..i + |a| + |b|];
    assert (a + b)[..|a|] == a && (a + b)[|a|..] == b;
    assert both[..|a|] == d[i..i + |a|] && both[|a|..] == d[i + |a|..i + |a| + |b|];
  }
}
