/** Big-endian encodings of a fixed width. */
module Bytes {
  import opened Types
  import opened Arithmetic

  function ToBytes(x: nat, n: nat): (bs: seq<byte>)
    ensures |bs| == n
  {
    if n == 0 then [] else ToBytes(x / 256, n - 1) + [(x % 256) as byte]
  }

  function FromBytes(bs: seq<byte>): nat {
    if bs == [] then 0 else FromBytes(bs[..|bs| - 1]) * 256 + bs[|bs| - 1] as nat
  }

  function Pow256(n: nat): (p: nat)
    ensures p > 0
  {
    if n == 0 then 1 else 256 * Pow256(n - 1)
  }

  lemma {:induction false} BytesRoundTrip(x: nat, n: nat)
    requires x < Pow256(n)
    ensures FromBytes(ToBytes(x, n)) == x
  {
    if n > 0 {
      BytesRoundTrip(x / 256, n - 1);
      assert ToBytes(x, n)[..n - 1] == ToBytes(x / 256, n - 1);
    }
  }

  lemma ToBytesInjective(x: nat, y: nat, n: nat)
    requires x < Pow256(n) && y < Pow256(n) && ToBytes(x, n) == ToBytes(y, n)
    ensures x == y
  {
    BytesRoundTrip(x, n);
    BytesRoundTrip(y, n);
  }

  /** The most significant byte comes first. */
  lemma {:induction false} ByteAt(x: nat, n: nat, i: nat)
    requires i < n
    ensures 0 <= x / Pow256(n - 1 - i)
    ensures ToBytes(x, n)[i] as nat == x / Pow256(n - 1 - i) % 256
  {
    if i < n - 1 {
      ByteAt(x / 256, n - 1, i);
      DivTwice(x, 256, Pow256(n - 2 - i));
    }
  }
}
