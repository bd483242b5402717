/** Bytes, 512-byte blocks and the little-endian views that replace raw pointer casts. */
module Bytes {

  type byte = b: int | 0 <= b < 256

  const BLOCK_SZ := 512

  const U32_LIMIT := 0x1_0000_0000
  const U64_LIMIT := 0x1_0000_0000_0000_0000

  function Zeros(n: nat): (z: seq<byte>)
    ensures |z| == n && forall i :: 0 <= i < n ==> z[i] == 0
  {
    seq(n, _ => 0)
  }

  type Block = b: seq<byte> | |b| == 512 witness Zeros(512)

  const ZERO_BLOCK: Block := Zeros(512)

  // ----- little-endian numbers

  function LeNat(s: seq<byte>): nat {
    if s == [] then 0 else s[0] + 256 * LeNat(s[1..])
  }

  function LeBytes(v: nat, n: nat): (s: seq<byte>)
    ensures |s| == n
  {
    if n == 0 then [] else [v % 256] + LeBytes(v / 256, n - 1)
  }

  ghost function Pow256(n: nat): nat {
    if n == 0 then 1 else 256 * Pow256(n - 1)
  }

  lemma {:induction false} LeNatOfBytes(v: nat, n: nat)
    requires v < Pow256(n)
    ensures LeNat(LeBytes(v, n)) == v
  {
    if n > 0 {
      LeNatOfBytes(v / 256, n - 1);
      assert LeBytes(v, n)[1..] == LeBytes(v / 256, n - 1);
    }
  }

  lemma {:induction false} LeBytesOfNat(s: seq<byte>)
    ensures LeNat(s) < Pow256(|s|)
    ensures LeBytes(LeNat(s), |s|) == s
  {
    if s != [] {
      LeBytesOfNat(s[1..]);
      assert LeNat(s) / 256 == LeNat(s[1..]) && LeNat(s) % 256 == s[0];
    }
  }

  lemma LeNatOfZeros(n: nat)
    ensures LeNat(Zeros(n)) == 0
  {
    if n > 0 {
      LeNatOfZeros(n - 1);
      assert Zeros(n)[1..] == Zeros(n - 1);
    }
  }

  lemma Pow256Values()
    ensures Pow256(4) == U32_LIMIT
    ensures Pow256(8) == U64_LIMIT
  {
    assert Pow256(2) == 65536;
    assert Pow256(4) == 65536 * 65536;
    assert Pow256(6) == 65536 * Pow256(4);
    assert Pow256(8) == 65536 * Pow256(6);
  }

  // ----- overwriting a piece of a sequence in place

  function Splice<T>(b: seq<T>, o: nat, s: seq<T>): (r: seq<T>)
    requires o + |s| <= |b|
    ensures |r| == |b|
    ensures r[o..o + |s|] == s
    ensures forall i :: 0 <= i < o ==> r[i] == b[i]
    ensures forall i :: o <= i < o + |s| ==> r[i] == s[i - o]
    ensures forall i :: o + |s| <= i < |b| ==> r[i] == b[i]
  {
    b[..o] + s + b[o + |s|..]
  }

  // ----- 32-bit words of a block (an IndirectBlock is 128 of them)

  function Word(b: Block, i: nat): (v: nat)
    requires i < 128
  {
    LeNat(b[4 * i..4 * i + 4])
  }

  function SetWord(b: Block, i: nat, v: nat): (r: Block)
    requires i < 128
  {
    Splice(b, 4 * i, LeBytes(v, 4))
  }

  lemma WordOfSetWord(b: Block, i: nat, v: nat, j: nat)
    requires i < 128 && j < 128 && v < U32_LIMIT
    ensures Word(SetWord(b, i, v), j) == if i == j then v else Word(b, j)
  {
    var r := SetWord(b, i, v);
    if i == j {
      Pow256Values();
      LeNatOfBytes(v, 4);
      assert r[4 * i..4 * i + 4] == LeBytes(v, 4);
    } else {
      assert r[4 * j..4 * j + 4] == b[4 * j..4 * j + 4];
    }
  }

  // ----- 64-bit words of a block (a BitmapBlock is 64 of them)

  function Word64(b: Block, i: nat): (v: nat)
    requires i < 64
  {
    LeNat(b[8 * i..8 * i + 8])
  }

  function SetWord64(b: Block, i: nat, v: nat): (r: Block)
    requires i < 64
  {
    Splice(b, 8 * i, LeBytes(v, 8))
  }

  lemma Word64Bound(b: Block, i: nat)
    requires i < 64
    ensures Word64(b, i) < U64_LIMIT
  {
    LeBytesOfNat(b[8 * i..8 * i + 8]);
    Pow256Values();
  }

  lemma Word64OfSetWord64(b: Block, i: nat, v: nat, j: nat)
    requires i < 64 && j < 64 && v < U64_LIMIT
    ensures Word64(SetWord64(b, i, v), j) == if i == j then v else Word64(b, j)
  {
    var r := SetWord64(b, i, v);
    if i == j {
      Pow256Values();
      LeNatOfBytes(v, 8);
      assert r[8 * i..8 * i + 8] == LeBytes(v, 8);
    } else {
      assert r[8 * j..8 * j + 8] == b[8 * j..8 * j + 8];
    }
  }
}
