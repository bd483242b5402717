/** Allocation bitmaps: runs of blocks read as 64-bit words, allocated first-fit. */
module Bitmaps {
  import opened Basics
  import opened Bytes
  import opened BlockCaches

  const BLOCK_BITS := 4096

  // ----- the bits of one word

  // 1 << k
  function Shifted(k: nat): (p: nat)
    ensures p == Pow2(k)
  {
    if k == 0 then 1 else 2 * Shifted(k - 1)
  }

  lemma {:induction false} SetBitOf(w: nat, k: nat, j: nat)
    requires !BitOf(w, k)
    ensures BitOf(w + Pow2(k), j) <==> BitOf(w, j) || j == k
  {
    if k == 0 {
      assert (w + 1) / 2 == w / 2;
    } else {
      assert (w + Pow2(k)) / 2 == w / 2 + Pow2(k - 1);
      if j > 0 {
        SetBitOf(w / 2, k - 1, j - 1);
      }
    }
  }

  lemma {:induction false} ClearBitOf(w: nat, k: nat, j: nat)
    requires BitOf(w, k)
    ensures w >= Pow2(k)
    ensures BitOf(w - Pow2(k), j) <==> BitOf(w, j) && j != k
  {
    if k == 0 {
      assert (w - 1) / 2 == w / 2;
    } else {
      ClearBitOf(w / 2, k - 1, if j > 0 then j - 1 else 0);
      assert (w - Pow2(k)) / 2 == w / 2 - Pow2(k - 1);
    }
  }

  lemma {:induction false} SetBitBound(w: nat, k: nat, n: nat)
    requires w < Pow2(n) && k < n && !BitOf(w, k)
    ensures w + Pow2(k) < Pow2(n)
  {
    if k == 0 {
      assert w % 2 == 0 && Pow2(n) == 2 * Pow2(n - 1);
    } else {
      SetBitBound(w / 2, k - 1, n - 1);
      assert w / 2 + Pow2(k - 1) < Pow2(n - 1);
    }
  }

  lemma {:induction false} AllOnes(w: nat, n: nat, k: nat)
    requires w == Pow2(n) - 1 && k < n
    ensures BitOf(w, k)
  {
    if k > 0 {
      assert w / 2 == Pow2(n - 1) - 1;
      AllOnes(w / 2, n - 1, k - 1);
    }
  }

  lemma Pow2Of64()
    ensures Pow2(64) == U64_LIMIT
  {
    assert Pow2(8) == 256;
    assert Pow2(16) == 256 * Pow2(8);
    assert Pow2(24) == 256 * Pow2(16);
    assert Pow2(32) == 256 * Pow2(24);
    assert Pow2(40) == 256 * Pow2(32);
    assert Pow2(48) == 256 * Pow2(40);
    assert Pow2(56) == 256 * Pow2(48);
    assert Pow2(64) == 256 * Pow2(56);
  }

  /** u64::trailing_ones: the lowest clear bit of a word that is not all ones. */
  function TrailingOnes(w: nat, n: nat): (k: nat)
    requires w < Pow2(n) - 1
    ensures k < n && !BitOf(w, k)
    ensures forall j :: 0 <= j < k ==> BitOf(w, j)
  {
    if w % 2 == 0 then 0
    else
      var k := TrailingOnes(w / 2, n - 1);
      assert forall j :: 0 <= j < k + 1 ==> BitOf(w, j) by {
        forall j | 0 <= j < k + 1 ensures BitOf(w, j) {
          if j > 0 { assert BitOf(w / 2, j - 1); }
        }
      }
      k + 1
  }

  // ----- the bits of a block, and of a run of blocks

  predicate BlockBit(b: Block, j: nat)
    requires j < BLOCK_BITS
  {
    BitOf(Word64(b, j / 64), j % 64)
  }

  predicate Bit(d: seq<Block>, start: nat, i: nat)
    requires start + i / BLOCK_BITS < |d|
  {
    BlockBit(d[start + i / BLOCK_BITS], i % BLOCK_BITS)
  }

  lemma SetBlockBit(b: Block, w: nat, k: nat, j: nat)
    requires w < 64 && k < 64 && j < BLOCK_BITS
    requires !BitOf(Word64(b, w), k)
    ensures Word64(b, w) + Pow2(k) < U64_LIMIT
    ensures BlockBit(SetWord64(b, w, Word64(b, w) + Pow2(k)), j) <==> BlockBit(b, j) || j == 64 * w + k
  {
    Word64Bound(b, w);
    Pow2Of64();
    SetBitBound(Word64(b, w), k, 64);
    Word64OfSetWord64(b, w, Word64(b, w) + Pow2(k), j / 64);
    SetBitOf(Word64(b, w), k, j % 64);
  }

  lemma ClearBlockBit(b: Block, w: nat, k: nat, j: nat)
    requires w < 64 && k < 64 && j < BLOCK_BITS
    requires BitOf(Word64(b, w), k)
    ensures Word64(b, w) >= Pow2(k)
    ensures BlockBit(SetWord64(b, w, Word64(b, w) - Pow2(k)), j) <==> BlockBit(b, j) && j != 64 * w + k
  {
    Word64Bound(b, w);
    ClearBitOf(Word64(b, w), k, j % 64);
    Word64OfSetWord64(b, w, Word64(b, w) - Pow2(k), j / 64);
  }

  class Bitmap {
    const start: nat
    const blocks: nat

    constructor (start: nat, blocks: nat)
      ensures this.start == start && this.blocks == blocks
    {
      this.start := start;
      this.blocks := blocks;
    }

    // The bitmap lies on the device, and no handle on one of its blocks is out.
    ghost predicate Usable(cache: BlockCacheManager)
      reads cache
    {
      && start + blocks <= |cache.disk|
      && |cache.held| < NESTING
      && forall b :: start <= b < start + blocks ==> b !in cache.held
    }

    method Alloc(cache: BlockCacheManager) returns (r: Option<nat>)
      requires cache.Calm() && Usable(cache)
      modifies cache.Repr
      ensures cache.Calm() && fresh(cache.Repr - old(cache.Repr)) && cache.held == old(cache.held)
      ensures r.None? ==> cache.disk == old(cache.disk)
      ensures r.None? ==> forall i :: 0 <= i < blocks * BLOCK_BITS ==> Bit(cache.disk, start, i)
      ensures r.Some? ==> r.value < blocks * BLOCK_BITS && !Bit(old(cache.disk), start, r.value)
      ensures r.Some? ==> forall i :: 0 <= i < r.value ==> Bit(old(cache.disk), start, i)
      ensures r.Some? ==> FlippedOnly(old(cache.disk), cache.disk, start, blocks, r.value)
      ensures r.Some? ==> Bit(cache.disk, start, r.value)
    {
      hide BlockCacheManager.Valid, BlockBit;
      var block := 0;
      while block < blocks
        invariant 0 <= block <= blocks
        invariant cache.Calm() && fresh(cache.Repr - old(cache.Repr)) && cache.held == old(cache.held)
        invariant cache.disk == old(cache.disk)
        invariant forall i :: 0 <= i < block * BLOCK_BITS ==> Bit(cache.disk, start, i)
      {
        var pos := AllocInBlock(cache, start + block);
        if pos.Some? {
          var i := block * BLOCK_BITS + pos.value;
          assert i / BLOCK_BITS == block && i % BLOCK_BITS == pos.value;
          FlipIsLocal(old(cache.disk), cache.disk, start, blocks, i);
          return Some(i);
        }
        block := block + 1;
      }
      r := None;
    }

    method Dealloc(cache: BlockCacheManager, bit: nat)
      requires cache.Calm() && Usable(cache)
      requires bit < blocks * BLOCK_BITS && Bit(cache.disk, start, bit)
      modifies cache.Repr
      ensures cache.Calm() && fresh(cache.Repr - old(cache.Repr)) && cache.held == old(cache.held)
      ensures FlippedOnly(old(cache.disk), cache.disk, start, blocks, bit)
      ensures !Bit(cache.disk, start, bit)
    {
      hide BlockCacheManager.Valid, BlockBit;
      var blockPos, rest := bit / BLOCK_BITS, bit % BLOCK_BITS;
      var h := cache.Acquire(start + blockPos);
      var b := cache.Read(h);
      var b' := DeallocBits(b, rest);
      cache.Modify(h, b');
      HandleReturned(old(cache.held), cache.held, h);
      cache.Release(h);
      FlipIsLocal(old(cache.disk), cache.disk, start, blocks, bit);
    }
  }

  // Bit i changed value; every other bit and every block outside bit i's own is as before.
  ghost predicate FlippedOnly(d: seq<Block>, d': seq<Block>, start: nat, blocks: nat, i: nat)
    requires start + blocks <= |d| && i < blocks * BLOCK_BITS
  {
    && |d'| == |d|
    && (forall b :: 0 <= b < |d| && b != start + i / BLOCK_BITS ==> d'[b] == d[b])
    && (forall j :: 0 <= j < blocks * BLOCK_BITS && j != i ==> (Bit(d', start, j) <==> Bit(d, start, j)))
  }

  lemma FlipIsLocal(d: seq<Block>, d': seq<Block>, start: nat, blocks: nat, i: nat)
    requires start + blocks <= |d| && i < blocks * BLOCK_BITS
    requires |d'| == |d|
    requires forall b :: 0 <= b < |d| && b != start + i / BLOCK_BITS ==> d'[b] == d[b]
    requires var at := start + i / BLOCK_BITS;
             forall j :: 0 <= j < BLOCK_BITS && j != i % BLOCK_BITS ==>
               (BlockBit(d'[at], j) <==> BlockBit(d[at], j))
    ensures FlippedOnly(d, d', start, blocks, i)
  {
    forall j | 0 <= j < blocks * BLOCK_BITS && j != i
      ensures Bit(d', start, j) <==> Bit(d, start, j)
    {
      if j / BLOCK_BITS == i / BLOCK_BITS {
        assert j % BLOCK_BITS != i % BLOCK_BITS;
      }
    }
  }

  /** The closure that alloc runs on one bitmap block. */
  method AllocInBlock(cache: BlockCacheManager, id: nat) returns (r: Option<nat>)
    requires cache.Calm() && id < |cache.disk|
    requires |cache.held| < NESTING && id !in cache.held
    modifies cache.Repr
    ensures cache.Calm() && fresh(cache.Repr - old(cache.Repr)) && cache.held == old(cache.held)
    ensures |cache.disk| == old(|cache.disk|)
    ensures r.None? ==> cache.disk == old(cache.disk)
    ensures r.None? ==> forall j :: 0 <= j < BLOCK_BITS ==> BlockBit(cache.disk[id], j)
    ensures r.Some? ==> r.value < BLOCK_BITS && !BlockBit(old(cache.disk[id]), r.value)
    ensures r.Some? ==> forall j :: 0 <= j < r.value ==> BlockBit(old(cache.disk[id]), j)
    ensures r.Some? ==> cache.disk == old(cache.disk)[id := cache.disk[id]]
    ensures r.Some? ==> forall j :: 0 <= j < BLOCK_BITS ==>
                          (BlockBit(cache.disk[id], j) <==> BlockBit(old(cache.disk[id]), j) || j == r.value)
  {
    hide BlockCacheManager.Valid, BlockBit;
    var h := cache.Acquire(id);
    var b := cache.Read(h);
    var b';
    r, b' := AllocBits(b);
    cache.Modify(h, b');
    HandleReturned(old(cache.held), cache.held, h);
    cache.Release(h);
  }

  method AllocBits(b: Block) returns (r: Option<nat>, b': Block)
    ensures r.None? ==> b' == b && forall j :: 0 <= j < BLOCK_BITS ==> BlockBit(b, j)
    ensures r.Some? ==> r.value < BLOCK_BITS && !BlockBit(b, r.value)
    ensures r.Some? ==> forall j :: 0 <= j < r.value ==> BlockBit(b, j)
    ensures r.Some? ==> forall j :: 0 <= j < BLOCK_BITS ==> (BlockBit(b', j) <==> BlockBit(b, j) || j == r.value)
  {
    hide BlockBit, Word64, SetWord64, BitOf, TrailingOnes;
    var w := FirstFreeWord(b);
    if w == 64 {
      return None, b;
    }
    var k := FirstFreeBit(Word64(b, w), b, w);
    b' := SetWord64(b, w, Word64(b, w) + Shifted(k));
    r := Some(64 * w + k);
    SetBlockBits(b, w, k);
    LowerBits(b, w, k);
  }

  lemma LowerBits(b: Block, w: nat, k: nat)
    requires w < 64 && k < 64
    requires forall j :: 0 <= j < 64 * w ==> BlockBit(b, j)
    requires forall j :: 0 <= j < k ==> BitOf(Word64(b, w), j)
    ensures forall j :: 0 <= j < 64 * w + k ==> BlockBit(b, j)
  {
    hide Word64, BitOf;
    forall j | 64 * w <= j < 64 * w + k ensures BlockBit(b, j) {
      assert j / 64 == w && j % 64 == j - 64 * w;
    }
  }

  function FirstFreeBit(word: nat, ghost b: Block, ghost w: nat): (k: nat)
    requires w < 64 && word == Word64(b, w) != U64_LIMIT - 1
    ensures k < 64 && !BitOf(word, k)
    ensures forall j :: 0 <= j < k ==> BitOf(word, j)
  {
    Word64Bound(b, w);
    Pow2Of64();
    TrailingOnes(word, 64)
  }

  lemma SetBlockBits(b: Block, w: nat, k: nat)
    requires w < 64 && k < 64
    requires !BitOf(Word64(b, w), k)
    ensures !BlockBit(b, 64 * w + k)
    ensures forall j :: 0 <= j < BLOCK_BITS ==>
      (BlockBit(SetWord64(b, w, Word64(b, w) + Pow2(k)), j) <==> BlockBit(b, j) || j == 64 * w + k)
  {
    assert (64 * w + k) / 64 == w && (64 * w + k) % 64 == k;
    forall j | 0 <= j < BLOCK_BITS
      ensures BlockBit(SetWord64(b, w, Word64(b, w) + Pow2(k)), j) <==> BlockBit(b, j) || j == 64 * w + k
    {
      SetBlockBit(b, w, k, j);
    }
  }

  method DeallocBits(b: Block, rest: nat) returns (b': Block)
    requires rest < BLOCK_BITS && BlockBit(b, rest)
    ensures forall j :: 0 <= j < BLOCK_BITS ==> (BlockBit(b', j) <==> BlockBit(b, j) && j != rest)
  {
    var wordPos, innerPos := rest / 64, rest % 64;
    ClearBlockBit(b, wordPos, innerPos, rest);
    b' := SetWord64(b, wordPos, Word64(b, wordPos) - Shifted(innerPos));
    forall j | 0 <= j < BLOCK_BITS ensures BlockBit(b', j) <==> BlockBit(b, j) && j != rest {
      ClearBlockBit(b, wordPos, innerPos, j);
    }
  }

  method FirstFreeWord(b: Block) returns (w: nat)
    ensures w <= 64
    ensures forall j :: 0 <= j < 64 * w ==> BlockBit(b, j)
    ensures w < 64 ==> Word64(b, w) != U64_LIMIT - 1
  {
    w := 0;
    while w < 64 && Word64(b, w) == U64_LIMIT - 1
      invariant w <= 64
      invariant forall j :: 0 <= j < 64 * w ==> BlockBit(b, j)
    {
      Pow2Of64();
      forall j | 64 * w <= j < 64 * w + 64 ensures BlockBit(b, j) {
        AllOnes(Word64(b, w), 64, j % 64);
      }
      w := w + 1;
    }
  }
}
