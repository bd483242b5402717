/** The disk inode and its in-place operations, each proved against the flat view. */
module DiskInodes {
  import opened Bytes
  import opened BlockCaches
  import opened Layout
  import opened Files

  // ----- growth, one flat position at a time

  // n on d has the first p ids of all, and d differs from d0 in index blocks of all only.
  ghost predicate Grown(n: InodeRec, d0: seq<Block>, d: seq<Block>, all: seq<nat>, p: nat) {
    && p <= |all| <= MAX_FLAT
    && |d| == |d0| < U32_LIMIT
    && OnDevice(d0, all)
    && Distinct(all)
    && Indexed(n, d, all[..p])
    && SameExceptIndex(d0, d, all)
  }

  lemma GrowInInode(n: InodeRec, d0: seq<Block>, d: seq<Block>, all: seq<nat>, p: nat)
    requires Grown(n, d0, d, all, p) && p < |all| && HomeOf(p).InInode?
    ensures Grown(WithSlot(n, HomeOf(p).slot, all[p]), d0, d, all, p + 1)
  {
    AppendInInode(n, d, all[..p], all[p]);
    assert all[..p + 1] == all[..p] + [all[p]];
  }

  lemma GrowInBlock(n: InodeRec, d0: seq<Block>, d: seq<Block>, all: seq<nat>, p: nat)
    requires Grown(n, d0, d, all, p) && p < |all| && HomeOf(p).InBlock?
    ensures var h := HomeOf(p);
            var at := all[h.parent];
            at < |d| && Grown(n, d0, d[at := SetWord(d[at], h.slot, all[p])], all, p + 1)
  {
    var h := HomeOf(p);
    var at := all[h.parent];
    AppendInBlock(n, d, all[..p], all[p]);
    assert all[..p + 1] == all[..p] + [all[p]];
    assert IndexBlock(all, at);
  }

  lemma GrownAtAnySize(n: InodeRec, d0: seq<Block>, d: seq<Block>, all: seq<nat>, p: nat, size: nat)
    requires Grown(n, d0, d, all, p) && size < U32_LIMIT
    ensures n.(size := size).WellFormed() && Grown(n.(size := size), d0, d, all, p)
  {
    forall q | 0 <= q < p ensures StoredAt(n.(size := size), d, all[..p], q) {
      assert StoredAt(n, d, all[..p], q);
    }
  }

  lemma GrownIsDistinct(n: InodeRec, d0: seq<Block>, d: seq<Block>, all: seq<nat>, p: nat, q: nat)
    requires Grown(n, d0, d, all, p) && q < |all|
    ensures forall r :: 0 <= r < |all| && r != q ==> all[r] != all[q]
  {
  }

  lemma GrownFully(n: InodeRec, d0: seq<Block>, d: seq<Block>, all: seq<nat>)
    requires Grown(n, d0, d, all, |all|)
    ensures Indexed(n, d, all) && SameExceptIndex(d0, d, all)
  {
    assert all[..|all|] == all;
  }

  lemma GrownIndexWord(n: InodeRec, d0: seq<Block>, d: seq<Block>, all: seq<nat>, p: nat, q: nat)
    requires Grown(n, d0, d, all, p) && q < p
    ensures n.WellFormed() && all[q] < |d|
    ensures HomeOf(q).InInode? ==> SlotOf(n, HomeOf(q).slot) == all[q]
    ensures HomeOf(q).InBlock? ==> all[HomeOf(q).parent] < |d| &&
                                   Word(d[all[HomeOf(q).parent]], HomeOf(q).slot) == all[q]
  {
    assert StoredAt(n, d, all[..p], q);
  }

  // ----- reading the tree back

  lemma IndexedWord(n: InodeRec, d: seq<Block>, ids: seq<nat>, q: nat)
    requires Indexed(n, d, ids) && q < |ids|
    ensures n.WellFormed() && ids[q] < |d|
    ensures HomeOf(q).InInode? ==> SlotOf(n, HomeOf(q).slot) == ids[q]
    ensures HomeOf(q).InBlock? ==> Word(d[ids[HomeOf(q).parent]], HomeOf(q).slot) == ids[q]
  {
    assert StoredAt(n, d, ids, q);
  }

  // The children of the index block at position at follow it, in word order.
  lemma ChildrenFollow(n: InodeRec, d: seq<Block>, ids: seq<nat>, at: nat, count: nat)
    requires Indexed(n, d, ids) && at + count < |ids| && count <= 128
    requires at == 28 || (at >= 158 && IsIndex(at))
    ensures ids[at] < |d|
    ensures Words(d[ids[at]], count) == ids[at + 1..at + 1 + count]
  {
    hide Word, InodeRec.WellFormed;
    forall j | 0 <= j < count ensures Word(d[ids[at]], j) == ids[at + 1 + j] {
      IndexedWord(n, d, ids, at + 1 + j);
    }
  }

  function Words(b: Block, count: nat): (s: seq<nat>)
    requires count <= 128
  {
    seq(count, j requires 0 <= j < count => Word(b, j))
  }

  // The position reached when c blocks below indirect1 have been placed.
  function Reached1(c: nat): nat {
    if c <= 128 then 29 + c else FlatCount(28 + c)
  }

  // The position reached when a full rows and b blocks of the next are placed below indirect2.
  function Reached2(a: nat, b: nat): nat {
    158 + 129 * a + (if b == 0 then 0 else b + 1)
  }

  lemma Reached2Counts(a: nat, b: nat)
    requires b < 128
    ensures a + b > 0 ==> FlatCount(156 + 128 * a + b) == Reached2(a, b)
  {
    assert (128 * a + b + 127) / 128 == a + (if b == 0 then 0 else 1);
  }

  // The ids in use, none of them held.
  ghost predicate Unheld(cache: BlockCacheManager, ids: seq<nat>)
    reads cache
  {
    && |cache.held| <= 1
    && forall p :: 0 <= p < |ids| ==> ids[p] !in cache.held
  }

  class DiskInode {
    var size: nat
    var direct: seq<nat>
    var indirect1: nat
    var indirect2: nat
    var kind: Kind

    function Rec(): InodeRec
      reads this
    {
      InodeRec(size, direct, indirect1, indirect2, kind)
    }

    constructor (n: InodeRec)
      ensures Rec() == n
    {
      size, direct, indirect1, indirect2, kind := n.size, n.direct, n.indirect1, n.indirect2, n.kind;
    }

    /** initialize(type_). */
    method Initialize(kind: Kind)
      modifies this
      ensures Rec() == EmptyRec(kind)
    {
      size, direct, indirect1, indirect2, this.kind := 0, NoBlocks(28), 0, 0, kind;
    }

    /** increase_size: the new blocks become the next positions of the flat list, in order. */
    method IncreaseSize(newSize: nat, newBlocks: seq<nat>, cache: BlockCacheManager, ghost ids: seq<nat>)
      requires cache.Calm() && this !in cache.Repr
      requires size <= newSize <= MAX_SIZE
      requires |ids| == TotalBlocks(size) && |ids| + |newBlocks| == TotalBlocks(newSize)
      requires Rec().WellFormed() && Grown(Rec(), cache.disk, cache.disk, ids + newBlocks, |ids|)
      requires Unheld(cache, ids + newBlocks)
      modifies this, cache.Repr
      ensures cache.Calm() && fresh(cache.Repr - old(cache.Repr)) && cache.held == old(cache.held)
      ensures size == newSize && kind == old(kind)
      ensures Indexed(Rec(), cache.disk, ids + newBlocks)
      ensures SameExceptIndex(old(cache.disk), cache.disk, ids + newBlocks)
      ensures DataBlocks(old(size)) == DataBlocks(newSize) && old(cache.device.blocks) == old(cache.disk) ==>
                cache.disk == old(cache.disk) && cache.device.blocks == cache.disk
    {
      hide BlockCacheManager.Valid, Grown, Indexed, Distinct, SameExceptIndex, OnDevice, Word, SetWord, InodeRec.WellFormed;
      ghost var all, d0 := ids + newBlocks, cache.disk;
      var current, k := DataBlocks(size), 0;
      GrownAtAnySize(Rec(), d0, d0, all, |ids|, newSize);
      size := newSize;
      var total := DataBlocks(size);
      FlatCountMonotone(current, total);
      current, k := FillDirect(current, total, newBlocks, all, |ids|, d0);
      if total > DIRECT_COUNT {
        current, k := GrowIndirect1(current, total, newBlocks, k, cache, all, |ids|, d0);
        if total > INDIRECT1_BOUND {
          GrowIndirect2(current, total, newBlocks, k, cache, all, |ids|, d0);
        }
      }
      GrownFully(Rec(), d0, cache.disk, all);
    }

    /** Allocates indirect1 when growth first passes the direct blocks, then fills it. */
    method GrowIndirect1(current: nat, total: nat, newBlocks: seq<nat>, k: nat, cache: BlockCacheManager,
                         ghost all: seq<nat>, ghost base: nat, ghost d0: seq<Block>)
      returns (current': nat, k': nat)
      requires cache.Calm() && this !in cache.Repr
      requires 28 <= current <= total && 28 < total && FlatCount(total) == |all|
      requires base + |newBlocks| == |all| && all[base..] == newBlocks
      requires base + k == FlatCount(current)
      requires Rec().WellFormed() && Grown(Rec(), d0, cache.disk, all, base + k)
      requires Unheld(cache, all)
      modifies `indirect1, cache.Repr
      ensures cache.Calm() && fresh(cache.Repr - old(cache.Repr)) && cache.held == old(cache.held)
      ensures current' == if current >= 156 then current else if total < 156 then total else 156
      ensures base + k' == FlatCount(current')
      ensures Rec().WellFormed() && Grown(Rec(), d0, cache.disk, all, base + k')
      ensures current == total && old(cache.device.blocks) == old(cache.disk) ==>
                cache.disk == old(cache.disk) && cache.device.blocks == cache.disk
    {
      hide BlockCacheManager.Valid, Grown, Indexed, Distinct, SameExceptIndex, OnDevice, Word, SetWord, InodeRec.WellFormed;
      k' := k;
      if current == DIRECT_COUNT {
        GrowInInode(Rec(), d0, cache.disk, all, 28);
        assert all[base + k'] == newBlocks[k'];
        indirect1 := newBlocks[k'];
        k' := k' + 1;
      }
      current', k' := FillIndirect1(current - DIRECT_COUNT, total - DIRECT_COUNT, newBlocks, k', cache, all, base, d0);
      current' := current' + DIRECT_COUNT;
    }

    /** Allocates indirect2 when growth first passes indirect1's range, then fills below it. */
    method GrowIndirect2(current: nat, total: nat, newBlocks: seq<nat>, k: nat, cache: BlockCacheManager,
                         ghost all: seq<nat>, ghost base: nat, ghost d0: seq<Block>)
      requires cache.Calm() && this !in cache.Repr
      requires 156 <= current <= total && 156 < total <= INDIRECT2_BOUND && FlatCount(total) == |all|
      requires base + |newBlocks| == |all| && all[base..] == newBlocks
      requires base + k == FlatCount(current)
      requires Rec().WellFormed() && Grown(Rec(), d0, cache.disk, all, base + k)
      requires Unheld(cache, all)
      modifies `indirect2, cache.Repr
      ensures cache.Calm() && fresh(cache.Repr - old(cache.Repr)) && cache.held == old(cache.held)
      ensures Grown(Rec(), d0, cache.disk, all, |all|)
      ensures current == total && old(cache.device.blocks) == old(cache.disk) ==>
                cache.disk == old(cache.disk) && cache.device.blocks == cache.disk
    {
      hide BlockCacheManager.Valid, Grown, Indexed, Distinct, SameExceptIndex, OnDevice, Word, SetWord, InodeRec.WellFormed;
      var k' := k;
      if current == INDIRECT1_BOUND {
        GrowInInode(Rec(), d0, cache.disk, all, 157);
        assert all[base + k'] == newBlocks[k'];
        indirect2 := newBlocks[k'];
        k' := k' + 1;
      } else {
        var c := current - INDIRECT1_BOUND;
        Reached2Counts(c / 128, c % 128);
      }
      FillIndirect2(current - INDIRECT1_BOUND, total - INDIRECT1_BOUND, newBlocks, k', cache, all, base, d0);
    }

    method FillDirect(current: nat, total: nat, newBlocks: seq<nat>,
                      ghost all: seq<nat>, ghost base: nat, ghost d: seq<Block>)
      returns (current': nat, k': nat)
      requires current <= total && FlatCount(total) == |all|
      requires base == FlatCount(current) && base + |newBlocks| == |all| && all[base..] == newBlocks
      requires Rec().WellFormed() && Grown(Rec(), d, d, all, base)
      modifies this
      ensures current' == if current >= 28 then current else if total < 28 then total else 28
      ensures base + k' == FlatCount(current')
      ensures Rec().WellFormed() && Grown(Rec(), d, d, all, base + k')
      ensures size == old(size) && kind == old(kind)
    {
      hide Indexed, Distinct, SameExceptIndex, OnDevice;
      current', k' := current, 0;
      while current' < total && current' < DIRECT_COUNT
        invariant current <= current' <= total && (current < 28 ==> current' <= 28)
        invariant current >= 28 ==> current' == current
        invariant base + k' == FlatCount(current')
        invariant Grown(Rec(), d, d, all, base + k') && Rec().WellFormed()
        invariant size == old(size) && kind == old(kind)
      {
        FlatCountMonotone(current' + 1, total);
        GrowInInode(Rec(), d, d, all, base + k');
        assert all[base + k'] == newBlocks[k'];
        direct := direct[current' := newBlocks[k']];
        current', k' := current' + 1, k' + 1;
      }
    }

    /** The closure over the indirect1 block. */
    method FillIndirect1(current: nat, total: nat, newBlocks: seq<nat>, k: nat, cache: BlockCacheManager,
                         ghost all: seq<nat>, ghost base: nat, ghost d0: seq<Block>)
      returns (current': nat, k': nat)
      requires cache.Calm() && this !in cache.Repr
      requires current <= total && 0 < total && FlatCount(28 + total) == |all|
      requires base + |newBlocks| == |all| && all[base..] == newBlocks
      requires base + k == Reached1(current)
      requires Grown(Rec(), d0, cache.disk, all, base + k)
      requires Unheld(cache, all)
      modifies cache.Repr
      ensures cache.Calm() && fresh(cache.Repr - old(cache.Repr)) && cache.held == old(cache.held)
      ensures current' == if current >= 128 then current else if total < 128 then total else 128
      ensures base + k' == Reached1(current')
      ensures Grown(Rec(), d0, cache.disk, all, base + k')
      ensures current == total && old(cache.device.blocks) == old(cache.disk) ==>
                cache.disk == old(cache.disk) && cache.device.blocks == cache.disk
    {
      hide BlockCacheManager.Valid, Grown, Indexed, Distinct, SameExceptIndex, OnDevice, Word, SetWord, InodeRec.WellFormed;
      hide FlatCount;
      current', k' := current, k;
      RoomBelowIndirect1(current, total);
      GrownIndexWord(Rec(), d0, cache.disk, all, base + k, 28);
      var h := cache.Acquire(indirect1);
      ghost var held := cache.held;
      while current' < total && current' < INDIRECT1_COUNT
        invariant current <= current' && (current' <= total && (current < 128 ==> current' <= 128))
        invariant current >= 128 ==> current' == current
        invariant cache.Calm() && fresh(cache.Repr - old(cache.Repr))
        invariant cache.held == held && h.blockId == all[28] && cache.Out(h)
        invariant base + k' == Reached1(current')
        invariant Grown(Rec(), d0, cache.disk, all, base + k')
        invariant current' == current && old(cache.device.blocks) == old(cache.disk) ==>
                    cache.disk == old(cache.disk) && cache.device.blocks == cache.disk
      {
        RoomBelowIndirect1(current', total);
        GrowInBlock(Rec(), d0, cache.disk, all, base + k');
        assert all[base + k'] == newBlocks[k'];
        cache.SetWordHeld(h, current', newBlocks[k']);
        current', k' := current' + 1, k' + 1;
      }
      HandleReturned(old(cache.held), cache.held, h);
      cache.Release(h);
    }

    /** The nested closures over the indirect2 block and its children. */
    method FillIndirect2(current: nat, total: nat, newBlocks: seq<nat>, k: nat, cache: BlockCacheManager,
                         ghost all: seq<nat>, ghost base: nat, ghost d0: seq<Block>)
      requires cache.Calm() && this !in cache.Repr
      requires current <= total && 0 < total <= 16384 && FlatCount(156 + total) == |all|
      requires base + |newBlocks| == |all| && all[base..] == newBlocks
      requires base + k == Reached2(current / 128, current % 128)
      requires Grown(Rec(), d0, cache.disk, all, base + k)
      requires Unheld(cache, all)
      modifies cache.Repr
      ensures cache.Calm() && fresh(cache.Repr - old(cache.Repr)) && cache.held == old(cache.held)
      ensures Grown(Rec(), d0, cache.disk, all, |all|)
      ensures current == total && old(cache.device.blocks) == old(cache.disk) ==>
                cache.disk == old(cache.disk) && cache.device.blocks == cache.disk
    {
      hide BlockCacheManager.Valid, Grown, Indexed, Distinct, SameExceptIndex, OnDevice, Word, SetWord, InodeRec.WellFormed;
      var a0: nat, b0: nat := current / INDIRECT1_COUNT, current % INDIRECT1_COUNT;
      var a1, b1 := total / INDIRECT1_COUNT, total % INDIRECT1_COUNT;
      var k' := k;
      Reached2Counts(a1, b1);
      GrownIndexWord(Rec(), d0, cache.disk, all, base + k, 157);
      GrownIsDistinct(Rec(), d0, cache.disk, all, base + k, 157);
      var h := cache.Acquire(indirect2);
      ghost var held := cache.held;
      while a0 < a1 || (a0 == a1 && b0 < b1)
        invariant b0 < 128 && 128 * a0 + b0 <= total
        invariant cache.Calm() && fresh(cache.Repr - old(cache.Repr))
        invariant cache.held == held && h.blockId == all[157] && cache.Out(h)
        invariant base + k' == Reached2(a0, b0)
        invariant Grown(Rec(), d0, cache.disk, all, base + k')
        invariant 128 * a0 + b0 >= current
        invariant 128 * a0 + b0 == current && old(cache.device.blocks) == old(cache.disk) ==>
                    cache.disk == old(cache.disk) && cache.device.blocks == cache.disk
        decreases total - 128 * a0 - b0
      {
        RoomInRow(a0, b0, a1, b1, total);
        k' := FillOne(a0, b0, newBlocks, k', h, cache, all, base, d0);
        b0 := b0 + 1;
        if b0 == INDIRECT1_COUNT {
          b0, a0 := 0, a0 + 1;
        }
      }
      assert a0 == a1 && b0 == b1;
      HandleReturned(old(cache.held), cache.held, h);
      cache.Release(h);
    }

    /** One turn of the loop: place the low-level index block if a row starts, then one block. */
    method FillOne(a0: nat, b0: nat, newBlocks: seq<nat>, k: nat, h: BlockCache, cache: BlockCacheManager,
                   ghost all: seq<nat>, ghost base: nat, ghost d0: seq<Block>)
      returns (k': nat)
      requires cache.Calm() && this !in cache.Repr
      requires a0 < 128 && b0 < 128 && 158 + 129 * a0 + b0 + 1 < |all|
      requires base + |newBlocks| == |all| && all[base..] == newBlocks
      requires base + k == Reached2(a0, b0)
      requires Grown(Rec(), d0, cache.disk, all, base + k)
      requires h.blockId == all[157] && cache.Out(h) && |cache.held| <= 2
      requires forall p :: 0 <= p < |all| && p != 157 ==> all[p] !in cache.held
      modifies cache.Repr
      ensures cache.Calm() && fresh(cache.Repr - old(cache.Repr)) && cache.held == old(cache.held)
      ensures base + k' == 158 + 129 * a0 + b0 + 2
      ensures Grown(Rec(), d0, cache.disk, all, base + k')
    {
      hide BlockCacheManager.Valid, Grown, Indexed, Distinct, SameExceptIndex, OnDevice, Word, SetWord, InodeRec.WellFormed;
      k' := k;
      ghost var row := 158 + 129 * a0;
      assert (row - 158) / 129 == a0 && (row - 158) % 129 == 0;
      assert (row + b0 + 1 - 158) / 129 == a0 && (row + b0 + 1 - 158) % 129 == b0 + 1;
      if b0 == 0 {
        GrowInBlock(Rec(), d0, cache.disk, all, row);
        assert all[base + k'] == newBlocks[k'];
        cache.SetWordHeld(h, a0, newBlocks[k']);
        k' := k' + 1;
      }
      GrownIndexWord(Rec(), d0, cache.disk, all, base + k', row);
      var indirect := cache.Read(h);
      GrowInBlock(Rec(), d0, cache.disk, all, row + b0 + 1);
      assert all[base + k'] == newBlocks[k'];
      cache.SetWordIn(Word(indirect, a0), b0, newBlocks[k']);
      k' := k' + 1;
    }

    /** clear_size: empties the inode and returns its flat list. */
    method ClearSize(cache: BlockCacheManager, ghost ids: seq<nat>) returns (v: seq<nat>)
      requires cache.Calm() && this !in cache.Repr
      requires size <= MAX_SIZE && |ids| == TotalBlocks(size)
      requires Rec().WellFormed() && Indexed(Rec(), cache.disk, ids) && Distinct(ids)
      requires Unheld(cache, ids)
      modifies this, cache.Repr
      ensures cache.Calm() && fresh(cache.Repr - old(cache.Repr)) && cache.held == old(cache.held)
      ensures cache.disk == old(cache.disk)
      ensures v == ids
      ensures Rec().WellFormed() && size == 0 && kind == old(kind)
      ensures forall j :: 0 <= j < 28 ==> direct[j] == if j < DataBlocks(old(size)) then 0 else old(direct)[j]
      ensures indirect1 == if DataBlocks(old(size)) > 28 then 0 else old(indirect1)
      ensures indirect2 == if DataBlocks(old(size)) > 156 then 0 else old(indirect2)
    {
      hide BlockCacheManager.Valid, Indexed, OnDevice, Word;
      ghost var n := Rec();
      var dataBlocks := DataBlocks(size);
      v := ClearDirect(dataBlocks, ids, cache.disk);
      if dataBlocks <= DIRECT_COUNT {
        return;
      }
      IndexedWord(n, cache.disk, ids, 28);
      v := v + [indirect1];
      dataBlocks := dataBlocks - DIRECT_COUNT;
      var count := if dataBlocks < INDIRECT1_COUNT then dataBlocks else INDIRECT1_COUNT;
      ChildrenFollow(n, cache.disk, ids, 28, count);
      v := PushWords(v, indirect1, count, cache);
      indirect1 := 0;
      if dataBlocks <= INDIRECT1_COUNT {
        return;
      }
      IndexedWord(n, cache.disk, ids, 157);
      v := v + [indirect2];
      dataBlocks := dataBlocks - INDIRECT1_COUNT;
      v := CollectIndirect2(v, dataBlocks, cache, n, ids);
      indirect2 := 0;
    }

    method ClearDirect(dataBlocks: nat, ghost ids: seq<nat>, ghost d: seq<Block>) returns (v: seq<nat>)
      requires dataBlocks == DataBlocks(size) && |ids| == FlatCount(dataBlocks)
      requires Rec().WellFormed() && Indexed(Rec(), d, ids)
      modifies this
      ensures Rec() == old(Rec()).(size := 0, direct := direct) && |direct| == 28
      ensures forall j :: 0 <= j < 28 ==> direct[j] == if j < dataBlocks then 0 else old(direct)[j]
      ensures v == ids[..if dataBlocks < 28 then dataBlocks else 28]
    {
      hide Indexed, OnDevice, Word;
      ghost var n := Rec();
      v := [];
      size := 0;
      var current := 0;
      while current < dataBlocks && current < DIRECT_COUNT
        invariant current <= dataBlocks && current <= 28 && current <= |ids|
        invariant Rec() == n.(size := 0, direct := direct) && |direct| == 28
        invariant forall j :: 0 <= j < 28 ==> direct[j] == if j < current then 0 else n.direct[j]
        invariant v == ids[..current]
      {
        IndexedWord(n, d, ids, current);
        v := v + [direct[current]];
        direct := direct[current := 0];
        current := current + 1;
      }
    }

    /** The closure over the indirect2 block: every full row, then the last partial one. */
    method CollectIndirect2(v0: seq<nat>, dataBlocks: nat, cache: BlockCacheManager,
                            ghost n: InodeRec, ghost ids: seq<nat>) returns (v: seq<nat>)
      requires cache.Calm() && this !in cache.Repr
      requires 0 < dataBlocks <= 16384 && |ids| == FlatCount(156 + dataBlocks)
      requires Indexed(n, cache.disk, ids) && Distinct(ids) && n.indirect2 == indirect2
      requires |ids| > 158 && v0 == ids[..158]
      requires Unheld(cache, ids)
      modifies cache.Repr
      ensures cache.Calm() && fresh(cache.Repr - old(cache.Repr)) && cache.held == old(cache.held)
      ensures cache.disk == old(cache.disk)
      ensures v == ids
    {
      hide BlockCacheManager.Valid, Indexed, OnDevice, Word, InodeRec.WellFormed;
      hide FlatCount;
      IndexedWord(n, cache.disk, ids, 157);
      var h := cache.Acquire(indirect2);
      var block := cache.Read(h);
      cache.Modify(h, block);
      assert cache.disk == old(cache.disk);
      assert forall p :: 0 <= p < |ids| && p != 157 ==> ids[p] != ids[157];
      v := CollectRows(v0, dataBlocks, block, cache, n, ids);
      HandleReturned(old(cache.held), cache.held, h);
      cache.Release(h);
    }

    method CollectRows(v0: seq<nat>, dataBlocks: nat, block: Block, cache: BlockCacheManager,
                       ghost n: InodeRec, ghost ids: seq<nat>) returns (v: seq<nat>)
      requires cache.Calm() && this !in cache.Repr
      requires 0 < dataBlocks <= 16384 && |ids| == FlatCount(156 + dataBlocks)
      requires |ids| > 158 && v0 == ids[..158]
      requires Indexed(n, cache.disk, ids)
      requires block == cache.disk[ids[157]]
      requires |cache.held| <= 2 && forall p :: 0 <= p < |ids| && p != 157 ==> ids[p] !in cache.held
      modifies cache.Repr
      ensures cache.Calm() && fresh(cache.Repr - old(cache.Repr)) && cache.held == old(cache.held)
      ensures cache.disk == old(cache.disk)
      ensures v == ids
    {
      hide BlockCacheManager.Valid, Indexed, OnDevice, Word, InodeRec.WellFormed;
      hide FlatCount;
      v := v0;
      var a1, b1 := dataBlocks / INDIRECT1_COUNT, dataBlocks % INDIRECT1_COUNT;
      Reached2Counts(a1, b1);
      var i := 0;
      while i < a1
        invariant 0 <= i <= a1
        invariant cache.Calm() && fresh(cache.Repr - old(cache.Repr)) && cache.held == old(cache.held)
        invariant cache.disk == old(cache.disk)
        invariant v == ids[..158 + 129 * i]
      {
        v := CollectRow(v, i, 128, block, cache, n, ids);
        i := i + 1;
      }
      if b1 > 0 {
        v := CollectRow(v, a1, b1, block, cache, n, ids);
      }
    }

    method CollectRow(v0: seq<nat>, a: nat, count: nat, block: Block, cache: BlockCacheManager,
                      ghost n: InodeRec, ghost ids: seq<nat>) returns (v: seq<nat>)
      requires cache.Calm() && this !in cache.Repr
      requires a < 128 && count <= 128 && 158 + 129 * a + count < |ids|
      requires Indexed(n, cache.disk, ids)
      requires block == cache.disk[ids[157]]
      requires |cache.held| <= 2 && forall p :: 0 <= p < |ids| && p != 157 ==> ids[p] !in cache.held
      requires v0 == ids[..158 + 129 * a]
      modifies cache.Repr
      ensures cache.Calm() && fresh(cache.Repr - old(cache.Repr)) && cache.held == old(cache.held)
      ensures cache.disk == old(cache.disk)
      ensures v == ids[..158 + 129 * a + 1 + count]
    {
      hide BlockCacheManager.Valid, Indexed, OnDevice, Word, InodeRec.WellFormed;
      ghost var row := 158 + 129 * a;
      assert (row - 158) / 129 == a && (row - 158) % 129 == 0;
      IndexedWord(n, cache.disk, ids, row);
      ChildrenFollow(n, cache.disk, ids, row, count);
      v := v0 + [Word(block, a)];
      v := PushWords(v, Word(block, a), count, cache);
    }

    /** get_block_id, through the cache. */
    method BlockId(i: nat, cache: BlockCacheManager, ghost ids: seq<nat>) returns (id: nat)
      requires cache.Calm() && this !in cache.Repr
      requires Indexed(Rec(), cache.disk, ids) && i < INDIRECT2_BOUND && Pos(i) < |ids|
      requires Unheld(cache, ids)
      modifies cache.Repr
      ensures cache.Calm() && fresh(cache.Repr - old(cache.Repr)) && cache.held == old(cache.held)
      ensures cache.disk == old(cache.disk)
      ensures old(cache.device.blocks) == cache.disk ==> cache.device.blocks == cache.disk
      ensures id == ids[Pos(i)]
    {
      hide BlockCacheManager.Valid, Indexed, OnDevice, Word, InodeRec.WellFormed;
      IndexedWord(Rec(), cache.disk, ids, Pos(i));
      if i < DIRECT_COUNT {
        id := direct[i];
      } else if i < INDIRECT1_BOUND {
        IndexedWord(Rec(), cache.disk, ids, 28);
        var block := cache.Peek(indirect1);
        id := Word(block, i - DIRECT_COUNT);
      } else {
        var last := i - INDIRECT1_BOUND;
        PosOfHigh(i);
        IndexedWord(Rec(), cache.disk, ids, 157);
        IndexedWord(Rec(), cache.disk, ids, 158 + 129 * (last / 128));
        var block := cache.Peek(indirect2);
        block := cache.Peek(Word(block, last / INDIRECT1_COUNT));
        id := Word(block, last % INDIRECT1_COUNT);
      }
    }

    /** read_at: fills buf from the file and returns how many bytes were read. */
    method ReadAt(offset: nat, buf: array<byte>, cache: BlockCacheManager, ghost f: File)
      returns (readSize: nat)
      requires cache.Calm() && this !in cache.Repr && buf !in cache.Repr
      requires f.rec == Rec() && FileOk(cache.disk, f)
      requires Unheld(cache, f.ids)
      modifies buf, cache.Repr
      ensures cache.Calm() && fresh(cache.Repr - old(cache.Repr)) && cache.held == old(cache.held)
      ensures cache.disk == old(cache.disk)
      ensures old(cache.device.blocks) == cache.disk ==> cache.device.blocks == cache.disk
      ensures |f.content| == size
      ensures readSize == if offset >= size then 0 else if buf.Length <= size - offset then buf.Length else size - offset
      ensures forall i :: 0 <= i < readSize ==> buf[i] == f.content[offset + i]
      ensures readSize == |ReadSlice(f.content, offset, buf.Length)|
      ensures buf[..readSize] == ReadSlice(f.content, offset, buf.Length)
      ensures buf[readSize..] == old(buf[readSize..])
    {
      hide BlockCacheManager.Valid, FileOk, Unheld, ReadSlice;
      assert size == |f.content| by { FileSize(cache.disk, f); }
      ReadSliceMeans(f.content, offset, buf.Length);
      var start, end := offset, if offset + buf.Length < size then offset + buf.Length else size;
      if start >= end {
        return 0;
      }
      ReadBlocks(start, end, buf, cache, f);
      readSize := end - start;
      assert forall i :: 0 <= i < readSize ==> buf[i] == buf[..readSize][i];
    }

    /** The loop of read_at, block by block. */
    method ReadBlocks(offset: nat, end: nat, buf: array<byte>, cache: BlockCacheManager, ghost f: File)
      requires cache.Calm() && this !in cache.Repr && buf !in cache.Repr
      requires f.rec == Rec() && FileOk(cache.disk, f)
      requires Unheld(cache, f.ids)
      requires offset < end <= |f.content| && end - offset <= buf.Length
      modifies buf, cache.Repr
      ensures cache.Calm() && fresh(cache.Repr - old(cache.Repr)) && cache.held == old(cache.held)
      ensures cache.disk == old(cache.disk)
      ensures old(cache.device.blocks) == cache.disk ==> cache.device.blocks == cache.disk
      ensures buf[..end - offset] == f.content[offset..end]
      ensures buf[end - offset..] == old(buf[end - offset..])
    {
      hide BlockCacheManager.Valid, FileOk, Pos;
      var start, readSize := offset, 0;
      while true
        invariant offset <= start < end <= |f.content| && readSize == start - offset
        invariant cache.Calm() && fresh(cache.Repr - old(cache.Repr)) && cache.held == old(cache.held)
        invariant cache.disk == old(cache.disk)
        invariant old(cache.device.blocks) == cache.disk ==> cache.device.blocks == cache.disk
        invariant buf[..readSize] == f.content[offset..start]
        invariant buf[readSize..] == old(buf[readSize..])
        decreases end - start
      {
        var endCurrent := (start / BLOCK_SZ + 1) * BLOCK_SZ;
        if end < endCurrent { endCurrent := end; }
        ghost var before := buf[..];
        ReadBlock(start, endCurrent, buf, readSize, cache, f);
        ReadMore(old(buf[..]), before, buf[..], f.content, offset, start, endCurrent);
        readSize := readSize + (endCurrent - start);
        if endCurrent == end { break; }
        start := endCurrent;
      }
    }

    // The part of the buffer read so far grows by one piece.
    lemma ReadMore(b0: seq<byte>, b1: seq<byte>, b2: seq<byte>, content: seq<byte>, offset: nat, start: nat, end: nat)
      requires offset <= start < end <= |content| && end - offset <= |b1| == |b0|
      requires b1[..start - offset] == content[offset..start] && b1[start - offset..] == b0[start - offset..]
      requires b2 == Splice(b1, start - offset, content[start..end])
      ensures |b2| == |b0| && b2[..end - offset] == content[offset..end] && b2[end - offset..] == b0[end - offset..]
    {
      assert b2[..end - offset] == b1[..start - offset] + content[start..end];
      assert b2[end - offset..] == b1[start - offset..][end - start..];
      assert b0[end - offset..] == b0[start - offset..][end - start..];
    }

    lemma FileSize(d: seq<Block>, f: File)
      requires FileOk(d, f)
      ensures f.rec.size == |f.content| <= MAX_SIZE
    {
    }

    method ReadBlock(start: nat, endCurrent: nat, buf: array<byte>, at: nat, cache: BlockCacheManager, ghost f: File)
      requires cache.Calm() && this !in cache.Repr && buf !in cache.Repr
      requires f.rec == Rec() && FileOk(cache.disk, f)
      requires Unheld(cache, f.ids)
      requires start < endCurrent <= |f.content| && start % 512 + (endCurrent - start) <= 512
      requires at + (endCurrent - start) <= buf.Length
      modifies buf, cache.Repr
      ensures cache.Calm() && fresh(cache.Repr - old(cache.Repr)) && cache.held == old(cache.held)
      ensures cache.disk == old(cache.disk)
      ensures old(cache.device.blocks) == cache.disk ==> cache.device.blocks == cache.disk
      ensures buf[..] == Splice(old(buf[..]), at, f.content[start..endCurrent])
    {
      hide BlockCacheManager.Valid, Stores, Indexed, Pos;
      var i, lo, len := start / BLOCK_SZ, start % BLOCK_SZ, endCurrent - start;
      ReadPiece(cache.disk, f, i, lo, len);
      assert i < INDIRECT2_BOUND by { FileSize(cache.disk, f); }
      var id := BlockId(i, cache, f.ids);
      var block := cache.Peek(id);
      CopyInto(buf, at, block[lo..lo + len]);
    }

    /** write_at: overwrites the file's bytes, clipped to its size. */
    method WriteAt(offset: nat, buf: seq<byte>, cache: BlockCacheManager, ghost f: File)
      returns (writeSize: nat)
      requires cache.Calm() && this !in cache.Repr
      requires f.rec == Rec() && FileOk(cache.disk, f)
      requires Unheld(cache, f.ids)
      requires offset <= size && BlockStart(offset) < size
      modifies cache.Repr
      ensures cache.Calm() && fresh(cache.Repr - old(cache.Repr)) && cache.held == old(cache.held)
      ensures writeSize == if offset + |buf| <= size then |buf| else size - offset
      ensures |f.content| == size && FileOk(cache.disk, Overwritten(f, offset, buf[..writeSize]))
      ensures SameOutside(old(cache.disk), cache.disk, f.ids)
      ensures offset % BLOCK_SZ + |buf| <= BLOCK_SZ && old(cache.device.blocks) == old(cache.disk) ==>
                cache.device.blocks == old(cache.device.blocks)
    {
      hide BlockCacheManager.Valid, FileOk, Pos, SameOutside, Overwritten, InodeRec.WellFormed;
      FileSize(cache.disk, f);
      var start, end := offset, if offset + |buf| < size then offset + |buf| else size;
      ghost var g := f;
      writeSize := 0;
      assert SameOutside(cache.disk, cache.disk, f.ids) by { SameOutsideReflexive(cache.disk, f.ids); }
      OverwrittenByNothing(f, offset, buf);
      while true
        invariant offset <= start <= end <= size && writeSize == start - offset && BlockStart(start) < size
        invariant cache.Calm() && fresh(cache.Repr - old(cache.Repr)) && cache.held == old(cache.held)
        invariant g == Overwritten(f, offset, buf[..writeSize]) && FileOk(cache.disk, g)
        invariant g.rec == f.rec && g.ids == f.ids && |g.content| == |f.content|
        invariant SameOutside(old(cache.disk), cache.disk, f.ids)
        invariant offset % BLOCK_SZ + |buf| <= BLOCK_SZ ==> start == offset
        invariant start == offset ==> cache.disk == old(cache.disk) && cache.device.blocks == old(cache.device.blocks)
        decreases end - start
      {
        var endCurrent := (start / BLOCK_SZ + 1) * BLOCK_SZ;
        if end < endCurrent { endCurrent := end; }
        var piece := buf[writeSize..writeSize + (endCurrent - start)];
        ghost var before := cache.disk;
        WriteBlock(start, piece, cache, g);
        SameOutsideTransitive(old(cache.disk), before, cache.disk, f.ids);
        OverwrittenFurther(f, offset, buf, writeSize, |piece|);
        g := Overwritten(g, start, piece);
        writeSize := writeSize + (endCurrent - start);
        if endCurrent == end { break; }
        start := endCurrent;
      }
    }

    method WriteBlock(start: nat, piece: seq<byte>, cache: BlockCacheManager, ghost f: File)
      requires cache.Calm() && this !in cache.Repr
      requires f.rec == Rec() && FileOk(cache.disk, f)
      requires Unheld(cache, f.ids)
      requires start + |piece| <= |f.content| && start % 512 + |piece| <= 512 && BlockStart(start) < |f.content|
      modifies cache.Repr
      ensures cache.Calm() && fresh(cache.Repr - old(cache.Repr)) && cache.held == old(cache.held)
      ensures FileOk(cache.disk, Overwritten(f, start, piece))
      ensures SameOutside(old(cache.disk), cache.disk, f.ids)
      ensures old(cache.device.blocks) == old(cache.disk) ==> cache.device.blocks == old(cache.device.blocks)
    {
      hide BlockCacheManager.Valid, Stores, Indexed, Pos, Distinct, Overwritten;
      var i, lo := start / BLOCK_SZ, start % BLOCK_SZ;
      WritePiece(cache.disk, f, i, lo, piece);
      assert i < INDIRECT2_BOUND by { FileSize(cache.disk, f); }
      var id := BlockId(i, cache, f.ids);
      cache.SpliceIn(id, lo, piece);
    }

    lemma RoomBelowIndirect1(current: nat, total: nat)
      requires current <= total && 0 < total
      ensures 28 < Reached1(current) <= FlatCount(28 + total)
      ensures current < total && current < 128 ==> Reached1(current) < FlatCount(28 + total)
    {
      FlatCountMonotone(28 + current, 28 + total);
    }

    lemma RoomInRow(a0: nat, b0: nat, a1: nat, b1: nat, total: nat)
      requires b0 < 128 && b1 < 128 && total == 128 * a1 + b1 <= 16384
      requires a0 < a1 || (a0 == a1 && b0 < b1)
      ensures a0 < 128 && 158 + 129 * a0 + b0 + 1 < FlatCount(156 + total)
    {
      Reached2Counts(a1, b1);
    }
  }
  /** The closure that pushes the first count words of an index block onto v. */
  method PushWords(v0: seq<nat>, id: nat, count: nat, cache: BlockCacheManager) returns (v: seq<nat>)
    requires cache.Calm() && id < |cache.disk| && count <= 128
    requires id !in cache.held && |cache.held| < NESTING
    modifies cache.Repr
    ensures cache.Calm() && fresh(cache.Repr - old(cache.Repr)) && cache.held == old(cache.held)
    ensures cache.disk == old(cache.disk)
    ensures v == v0 + Words(cache.disk[id], count)
  {
    hide BlockCacheManager.Valid, Word;
    var h := cache.Acquire(id);
    var block := cache.Read(h);
    v := AppendWords(v0, block, count);
    cache.Modify(h, block);
    HandleReturned(old(cache.held), cache.held, h);
    cache.Release(h);
  }

  method AppendWords(v0: seq<nat>, block: Block, count: nat) returns (v: seq<nat>)
    requires count <= 128
    ensures v == v0 + Words(block, count)
  {
    v := v0;
    var j := 0;
    while j < count
      invariant 0 <= j <= count
      invariant v == v0 + Words(block, j)
    {
      v := v + [Word(block, j)];
      j := j + 1;
    }
  }

  /** dst.copy_from_slice(src) for dst = buf[at..at + |s|]. */
  method CopyInto(buf: array<byte>, at: nat, s: seq<byte>)
    requires at + |s| <= buf.Length
    modifies buf
    ensures buf[..] == Splice(old(buf[..]), at, s)
  {
    forall k | 0 <= k < |s| {
      buf[at + k] := s[k];
    }
  }

  // ----- any series of growths, then clearing

  function Flatten(lists: seq<seq<nat>>): seq<nat> {
    if lists == [] then [] else lists[0] + Flatten(lists[1..])
  }

  // Each list holds exactly the blocks its growth step needs.
  ghost predicate Measured(size: nat, sizes: seq<nat>, lists: seq<seq<nat>>)
    requires |sizes| == |lists|
    decreases |sizes|
  {
    sizes == [] ||
    (size <= sizes[0] <= MAX_SIZE && TotalBlocks(size) + |lists[0]| == TotalBlocks(sizes[0])
     && Measured(sizes[0], sizes[1..], lists[1..]))
  }

  lemma GrownPrefix(n: InodeRec, d: seq<Block>, ids: seq<nat>, added: seq<nat>, rest: seq<nat>)
    requires Indexed(n, d, ids) && Distinct(ids + added + rest) && OnDevice(d, ids + added + rest)
    requires |d| < U32_LIMIT && |ids| + |added| <= MAX_FLAT
    ensures Grown(n, d, d, ids + added, |ids|)
  {
    var all := ids + added + rest;
    assert forall p :: 0 <= p < |ids + added| ==> (ids + added)[p] == all[p];
    assert (ids + added)[..|ids|] == ids;
  }

  /** Grow by each list in turn and clear: the blocks come back in the order they went in. */
  method GrowAllAndClear(inode: DiskInode, sizes: seq<nat>, lists: seq<seq<nat>>, cache: BlockCacheManager,
                         ghost ids: seq<nat>) returns (v: seq<nat>)
    requires cache.Calm() && inode !in cache.Repr && |cache.disk| < U32_LIMIT
    requires inode.size <= MAX_SIZE && |ids| == TotalBlocks(inode.size) && Indexed(inode.Rec(), cache.disk, ids)
    requires |sizes| == |lists| && Measured(inode.size, sizes, lists)
    requires Distinct(ids + Flatten(lists)) && OnDevice(cache.disk, ids + Flatten(lists))
    requires Unheld(cache, ids + Flatten(lists))
    modifies inode, cache.Repr
    ensures v == ids + Flatten(lists)
    ensures |v| == TotalBlocks(if sizes == [] then old(inode.size) else sizes[|sizes| - 1])
    ensures inode.size == 0
    decreases |sizes|
  {
    hide BlockCacheManager.Valid, Indexed, TotalBlocks, Grown, SameExceptIndex;
    if sizes == [] {
      assert ids + Flatten(lists) == ids;
      assert inode.Rec().WellFormed() by { IndexedWellFormed(inode.Rec(), cache.disk, ids); }
      v := inode.ClearSize(cache, ids);
    } else {
      ghost var ids', rest := ids + lists[0], Flatten(lists[1..]);
      assert ids + Flatten(lists) == ids' + rest;
      assert ids' + rest == ids + lists[0] + rest;
      assert |ids'| <= MAX_FLAT by { FlatCountMax(DataBlocks(sizes[0])); TotalIsFlat(sizes[0]); }
      assert inode.Rec().WellFormed() by { IndexedWellFormed(inode.Rec(), cache.disk, ids); }
      GrownPrefix(inode.Rec(), cache.disk, ids, lists[0], rest);
      assert Unheld(cache, ids') by {
        assert forall p :: 0 <= p < |ids'| ==> ids'[p] == (ids' + rest)[p];
      }
      ghost var d := cache.disk;
      inode.IncreaseSize(sizes[0], lists[0], cache, ids);
      assert |cache.disk| == |d| by { SameLength(d, cache.disk, ids'); }
      v := GrowAllAndClear(inode, sizes[1..], lists[1..], cache, ids');
    }
  }

  lemma TotalIsFlat(size: nat)
    ensures TotalBlocks(size) == FlatCount(DataBlocks(size))
  {
  }

  lemma SameLength(d: seq<Block>, d': seq<Block>, ids: seq<nat>)
    requires SameExceptIndex(d, d', ids)
    ensures |d'| == |d|
  {
  }

  lemma IndexedWellFormed(n: InodeRec, d: seq<Block>, ids: seq<nat>)
    requires Indexed(n, d, ids)
    ensures n.WellFormed()
  {
  }
}
