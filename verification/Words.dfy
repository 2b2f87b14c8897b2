/** Little-endian words in byte sequences. */
module Words {
  import opened DivMod

  type Byte = b: int | 0 <= b < 256

  function Pow256(n: nat): (p: nat)
    ensures p > 0
  {
    if n == 0 then 1 else 256 * Pow256(n - 1)
  }

  /** The word that bytes stand for. */
  function Le(bs: seq<Byte>): nat {
    if bs == [] then 0 else bs[0] + 256 * Le(bs[1..])
  }

  /** The low `n` bytes of a word. */
  function Bytes(n: nat, w: nat): (bs: seq<Byte>)
    ensures |bs| == n
  {
    if n == 0 then [] else [w % 256] + Bytes(n - 1, w / 256)
  }

  lemma {:induction false} LeOfBytes(n: nat, w: nat)
    requires w < Pow256(n)
    ensures Le(Bytes(n, w)) == w
  {
    if n > 0 {
      LeOfBytes(n - 1, w / 256);
      assert Bytes(n, w)[1..] == Bytes(n - 1, w / 256);
    }
  }

  lemma {:induction false} BytesOfLe(bs: seq<Byte>)
    ensures Bytes(|bs|, Le(bs)) == bs
  {
    if bs != [] {
      var rest := Le(bs[1..]);
      BytesOfLe(bs[1..]);
      ModIs(bs[0] + 256 * rest, 256, rest, bs[0]);
      assert Bytes(|bs|, Le(bs)) == [bs[0]] + bs[1..];
    }
  }

  lemma {:induction false} LeBound(bs: seq<Byte>)
    ensures Le(bs) < Pow256(|bs|)
  {
    if bs != [] { LeBound(bs[1..]); }
  }

  /** A shorter read of the same bytes is the low part of the longer one. */
  lemma {:induction false} LePrefix(bs: seq<Byte>, n: nat)
    requires n <= |bs|
    ensures Le(bs[..n]) == Le(bs) % Pow256(n)
  {
    if n == 0 {
    } else {
      LePrefix(bs[1..], n - 1);
      assert bs[..n][1..] == bs[1..][..n - 1];
      ModStep(bs[0], Le(bs[1..]), Pow256(n - 1));
    }
  }

  lemma ModStep(b: Byte, x: nat, p: nat)
    requires p > 0
    ensures (b + 256 * x) % (256 * p) == b + 256 * (x % p)
  {
    var q, r := x / p, x % p;
    assert b + 256 * x == (256 * p) * q + (b + 256 * r);
    ModIs(b + 256 * x, 256 * p, q, b + 256 * r);
  }

  lemma Pow256Values()
    ensures Pow256(2) == 0x1_0000 && Pow256(4) == 0x1_0000_0000 && Pow256(8) == 0x1_0000_0000_0000_0000
  {
    assert Pow256(1) == 256;
    assert Pow256(3) == 0x100_0000;
    assert Pow256(5) == 0x100_0000_0000;
    assert Pow256(6) == 0x1_0000_0000_0000;
    assert Pow256(7) == 0x100_0000_0000_0000;
  }
}
