/** Bytes and fixed-width big-endian fields. */
module Bytes {

  type byte = x: int | 0 <= x < 256

  function Pow256(n: nat): (p: nat)
    ensures p > 0
  {
    if n == 0 then 1 else 256 * Pow256(n - 1)
  }

  /** The low n bytes of v, most significant first: a wider value is truncated. */
  function ToBE(n: nat, v: nat): (b: seq<byte>)
    ensures |b| == n
  {
    if n == 0 then [] else ToBE(n - 1, v / 256) + [v % 256]
  }

  function FromBE(b: seq<byte>): nat
  {
    if b == [] then 0 else FromBE(b[..|b| - 1]) * 256 + b[|b| - 1]
  }

  lemma {:induction false} FromBEBound(b: seq<byte>)
    ensures FromBE(b) < Pow256(|b|)
  {
    if b != [] {
      FromBEBound(b[..|b| - 1]);
    }
  }

  lemma {:induction false} FromToBE(n: nat, v: nat)
    requires v < Pow256(n)
    ensures FromBE(ToBE(n, v)) == v
  {
    if n > 0 {
      var b := ToBE(n, v);
      assert b[..n - 1] == ToBE(n - 1, v / 256);
      FromToBE(n - 1, v / 256);
    }
  }

  lemma {:induction false} ToFromBE(b: seq<byte>)
    ensures ToBE(|b|, FromBE(b)) == b
    decreases |b|
  {
    if b != [] {
      var c, last := b[..|b| - 1], b[|b| - 1];
      ToFromBE(c);
      Remainder(FromBE(c), last);
      assert b == c + [last];
    }
  }

  lemma Remainder(q: nat, r: byte)
    ensures (q * 256 + r) / 256 == q && (q * 256 + r) % 256 == r
  {
  }

  /** Distinct values in range have distinct fields. */
  lemma ToBEInjective(n: nat, v: nat, w: nat)
    requires v < Pow256(n) && w < Pow256(n) && ToBE(n, v) == ToBE(n, w)
    ensures v == w
  {
    FromToBE(n, v);
    FromToBE(n, w);
  }

  function Value(a: nat, b: nat, c: nat, d: nat): nat { 0x100_0000 * a + 0x1_0000 * b + 0x100 * c + d }

  /** The value of a field, byte by byte from the most significant one. */
  lemma BigEndian(b: seq<byte>)
    ensures |b| == 2 ==> FromBE(b) == Value(0, 0, b[0], b[1])
    ensures |b| == 4 ==> FromBE(b) == Value(b[0], b[1], b[2], b[3])
  {
    if |b| >= 2 { PeelTwo(b); }
    if |b| == 4 { PeelTwo(b[..2]); }
  }

  lemma PeelTwo(b: seq<byte>)
    requires |b| >= 2
    ensures FromBE(b) == (FromBE(b[..|b| - 2]) * 256 + b[|b| - 2]) * 256 + b[|b| - 1]
  {
    var c := b[..|b| - 1];
    assert c[..|c| - 1] == b[..|b| - 2];
  }

  lemma Widths()
    ensures Pow256(1) == 0x100 && Pow256(2) == 0x1_0000 && Pow256(4) == 0x1_0000_0000
    ensures Pow256(8) == 0x1_0000_0000_0000_0000
  {
    assert Pow256(3) == 256 * Pow256(2);
    assert Pow256(4) == 256 * Pow256(3);
    assert Pow256(5) == 256 * Pow256(4);
    assert Pow256(6) == 256 * Pow256(5);
    assert Pow256(7) == 256 * Pow256(6);
  }
}
