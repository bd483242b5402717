/**
 The on-disk inode as a tree of block ids, and the flat view of that tree.

 An inode's blocks are numbered by flat position, in the order in which growth consumes them:
 28 direct blocks, the indirect1 block and its 128 children, the indirect2 block, and then
 each low-level index block followed by its 128 children. Each position has one home: a field
 of the inode, or a word of the index block at an earlier position.
 */
module Layout {
  import opened Bytes

  const DIRECT_COUNT := 28
  const INDIRECT1_COUNT := 128
  const INDIRECT1_BOUND := 156
  const INDIRECT2_BOUND := 16540
  const MAX_SIZE := 8468480    // 512 * INDIRECT2_BOUND
  const MAX_FLAT := 16670      // INDIRECT2_BOUND data blocks, and 1 + 1 + 128 index blocks

  datatype Kind = FileKind | DirectoryKind

  // The value of a DiskInode.
  datatype InodeRec = InodeRec(size: nat, direct: seq<nat>, indirect1: nat, indirect2: nat, kind: Kind)
  {
    // Every field fits in its u32.
    ghost predicate WellFormed() {
      && |direct| == DIRECT_COUNT
      && (forall i :: 0 <= i < DIRECT_COUNT ==> direct[i] < U32_LIMIT)
      && size < U32_LIMIT && indirect1 < U32_LIMIT && indirect2 < U32_LIMIT
    }
  }

  // Where the block with this offset begins.
  function BlockStart(offset: nat): nat { offset - offset % BLOCK_SZ }

  function NoBlocks(n: nat): (ids: seq<nat>)
    ensures |ids| == n && forall i :: 0 <= i < n ==> ids[i] == 0
  {
    seq(n, _ => 0)
  }

  // What DiskInode::initialize writes.
  function EmptyRec(kind: Kind): (n: InodeRec)
    ensures n.WellFormed()
  {
    InodeRec(0, NoBlocks(28), 0, 0, kind)
  }

  // ----- sizes

  // DiskInode::data_blocks: the least number of blocks that hold size bytes.
  function DataBlocks(size: nat): (m: nat)
    ensures size <= BLOCK_SZ * m && (0 < m ==> BLOCK_SZ * (m - 1) < size)
  {
    (size + BLOCK_SZ - 1) / BLOCK_SZ
  }

  /** DiskInode::total_blocks. */
  function TotalBlocks(size: nat): nat {
    FlatCount(DataBlocks(size))
  }

  // How many flat positions an inode with m data blocks uses.
  function FlatCount(m: nat): nat {
    m + (if m > DIRECT_COUNT then 1 else 0)
      + (if m > INDIRECT1_BOUND then 1 + (m - INDIRECT1_BOUND + INDIRECT1_COUNT - 1) / INDIRECT1_COUNT else 0)
  }

  // ----- positions

  datatype Home = InInode(slot: nat) | InBlock(parent: nat, slot: nat)

  function HomeOf(p: nat): (h: Home)
    ensures h.InInode? ==> h.slot < 30
    ensures h.InBlock? ==> h.parent < p && IsIndex(h.parent)
    ensures h.InBlock? && p < MAX_FLAT ==> h.slot < INDIRECT1_COUNT
  {
    if p <= 28 then InInode(p)
    else if p < 157 then InBlock(28, p - 29)
    else if p == 157 then InInode(29)
    else
      var q := p - 158;
      if q % 129 == 0 then InBlock(157, q / 129) else InBlock(p - q % 129, q % 129 - 1)
  }

  // Positions that hold an index block rather than a data block.
  predicate IsIndex(p: nat) {
    p == 28 || p == 157 || (p >= 158 && (p - 158) % 129 == 0)
  }

  lemma HomeIsUnique(p: nat, q: nat)
    requires p < MAX_FLAT && q < MAX_FLAT
    requires HomeOf(p) == HomeOf(q)
    ensures p == q
  {
    if p >= 158 && q >= 158 {
      assert p - 158 == 129 * ((p - 158) / 129) + (p - 158) % 129;
      assert q - 158 == 129 * ((q - 158) / 129) + (q - 158) % 129;
    }
  }

  // The flat position of data block i.
  function Pos(i: nat): (p: nat)
    ensures p >= i
  {
    if i < DIRECT_COUNT then i
    else if i < INDIRECT1_BOUND then i + 1
    else i + 3 + (i - INDIRECT1_BOUND) / INDIRECT1_COUNT
  }

  lemma PosOfHigh(i: nat)
    requires i >= INDIRECT1_BOUND
    ensures var a, b := (i - INDIRECT1_BOUND) / 128, (i - INDIRECT1_BOUND) % 128;
            && Pos(i) - 158 == 129 * a + b + 1
            && (Pos(i) - 158) / 129 == a && (Pos(i) - 158) % 129 == b + 1
  {
  }

  lemma PosIsData(i: nat)
    ensures !IsIndex(Pos(i))
  {
    if i >= INDIRECT1_BOUND { PosOfHigh(i); }
  }

  lemma PosIsMonotone(i: nat, j: nat)
    requires i < j
    ensures Pos(i) < Pos(j)
  {
  }

  // Data block i is among the first FlatCount(m) positions exactly when i < m.
  lemma PosInCount(i: nat, m: nat)
    ensures Pos(i) < FlatCount(m) <==> i < m
  {
    if m > INDIRECT1_BOUND && i >= INDIRECT1_BOUND {
      PosOfHigh(i);
      var a, b := (i - INDIRECT1_BOUND) / 128, (i - INDIRECT1_BOUND) % 128;
      var c, e := (m - INDIRECT1_BOUND) / 128, (m - INDIRECT1_BOUND) % 128;
      assert (m - INDIRECT1_BOUND + 127) / 128 == c + (if e > 0 then 1 else 0);
    }
  }

  lemma {:induction false} FlatCountMonotone(m: nat, n: nat)
    requires m <= n
    ensures FlatCount(m) <= FlatCount(n)
  {
  }

  lemma FlatCountMax(m: nat)
    requires m <= INDIRECT2_BOUND
    ensures FlatCount(m) <= MAX_FLAT
  {
  }

  // ----- what the blocks of a size are for

  /** No fewer blocks hold size bytes. */
  lemma DataBlocksIsLeast(size: nat, n: nat)
    ensures size <= BLOCK_SZ * n <==> DataBlocks(size) <= n
  {
  }

  // How many of the positions below p hold data.
  ghost function DataBelow(p: nat): nat {
    if p == 0 then 0 else DataBelow(p - 1) + if IsIndex(p - 1) then 0 else 1
  }

  // The positions that one more data block brings: its own, and before it the index blocks it is the first to need.
  lemma OneMoreBlock(m: nat)
    ensures var p, q := FlatCount(m), FlatCount(m + 1);
            && p < q <= p + 3 && !IsIndex(q - 1)
            && forall i :: p <= i < q - 1 ==> IsIndex(i)
  {
    if m >= INDIRECT1_BOUND {
      var n := m - INDIRECT1_BOUND;
      var a, b := n / 128, n % 128;
      assert (n + 127) / 128 == a + if b > 0 then 1 else 0;
      assert (n + 128) / 128 == a + 1;
      PosOfHigh(m);
      assert FlatCount(m + 1) - 1 == Pos(m);
      if b == 0 { assert Pos(m) - 1 - 158 == 129 * a; }
    }
  }

  lemma {:induction false} DataBelowFlat(m: nat)
    ensures DataBelow(FlatCount(m)) == m
  {
    if m > 0 {
      DataBelowFlat(m - 1);
      OneMoreBlock(m - 1);
      var p, q := FlatCount(m - 1), FlatCount(m);
      hide FlatCount, IsIndex;
      if q >= p + 2 { assert IsIndex(p) && DataBelow(p + 1) == DataBelow(p); }
      if q == p + 3 { assert IsIndex(p + 1) && DataBelow(p + 2) == DataBelow(p + 1); }
      assert DataBelow(q) == DataBelow(q - 1) + 1;
    }
  }

  lemma IndexHasChild(m: nat, p: nat)
    requires p < FlatCount(m) && IsIndex(p)
    ensures p + 1 < FlatCount(m) && HomeOf(p + 1) == InBlock(p, 0)
  {
    if p >= 158 {
      var a := (p - 158) / 129;
      assert p == 158 + 129 * a;
      assert (p + 1 - 158) % 129 == 1;
    }
  }

  /** total_blocks counts the data blocks of the size, and index blocks of which none is idle. */
  lemma TotalBlocksMeans(size: nat)
    ensures DataBelow(TotalBlocks(size)) == DataBlocks(size)
    ensures forall p :: 0 <= p < TotalBlocks(size) && IsIndex(p) ==>
              p + 1 < TotalBlocks(size) && HomeOf(p + 1) == InBlock(p, 0)
  {
    hide FlatCount, HomeOf;
    DataBelowFlat(DataBlocks(size));
    forall p | 0 <= p < TotalBlocks(size) && IsIndex(p)
      ensures p + 1 < TotalBlocks(size) && HomeOf(p + 1) == InBlock(p, 0)
    {
      IndexHasChild(DataBlocks(size), p);
    }
  }

  // ----- where a flat id list is stored

  function SlotOf(n: InodeRec, s: nat): nat
    requires n.WellFormed() && s < 30
  {
    if s < 28 then n.direct[s] else if s == 28 then n.indirect1 else n.indirect2
  }

  function WithSlot(n: InodeRec, s: nat, x: nat): (r: InodeRec)
    requires n.WellFormed() && s < 30 && x < U32_LIMIT
    ensures r.WellFormed()
  {
    if s < 28 then n.(direct := n.direct[s := x])
    else if s == 28 then n.(indirect1 := x) else n.(indirect2 := x)
  }

  ghost predicate OnDevice(d: seq<Block>, ids: seq<nat>) {
    forall p :: 0 <= p < |ids| ==> ids[p] < |d|
  }

  ghost predicate Distinct(ids: seq<nat>) {
    forall p, q :: 0 <= p < q < |ids| ==> ids[p] != ids[q]
  }

  ghost predicate StoredAt(n: InodeRec, d: seq<Block>, ids: seq<nat>, p: nat)
    requires n.WellFormed() && OnDevice(d, ids) && p < |ids| <= MAX_FLAT
  {
    match HomeOf(p)
    case InInode(s) => SlotOf(n, s) == ids[p]
    case InBlock(parent, s) => Word(d[ids[parent]], s) == ids[p]
  }

  // The inode n on disk d has exactly the flat id list ids.
  ghost predicate Indexed(n: InodeRec, d: seq<Block>, ids: seq<nat>) {
    && n.WellFormed() && OnDevice(d, ids) && |ids| <= MAX_FLAT
    && forall p :: 0 <= p < |ids| ==> StoredAt(n, d, ids, p)
  }

  // ----- growth appends to the flat list

  lemma AppendInInode(n: InodeRec, d: seq<Block>, ids: seq<nat>, x: nat)
    requires Indexed(n, d, ids) && |ids| < MAX_FLAT && x < |d| < U32_LIMIT
    requires HomeOf(|ids|).InInode?
    ensures Indexed(WithSlot(n, HomeOf(|ids|).slot, x), d, ids + [x])
  {
    var n' := WithSlot(n, HomeOf(|ids|).slot, x);
    forall p | 0 <= p < |ids| + 1 ensures StoredAt(n', d, ids + [x], p) {
      if p < |ids| {
        assert StoredAt(n, d, ids, p);
        if HomeOf(p) == HomeOf(|ids|) { HomeIsUnique(p, |ids|); }
      }
    }
  }

  lemma AppendInBlock(n: InodeRec, d: seq<Block>, ids: seq<nat>, x: nat)
    requires Indexed(n, d, ids) && Distinct(ids) && |ids| < MAX_FLAT && x < |d| < U32_LIMIT
    requires HomeOf(|ids|).InBlock?
    ensures var h := HomeOf(|ids|);
            var at := ids[h.parent];
            Indexed(n, d[at := SetWord(d[at], h.slot, x)], ids + [x])
  {
    var h := HomeOf(|ids|);
    var at := ids[h.parent];
    var d' := d[at := SetWord(d[at], h.slot, x)];
    forall p | 0 <= p < |ids| + 1 ensures StoredAt(n, d', ids + [x], p) {
      if p < |ids| {
        assert StoredAt(n, d, ids, p);
        if HomeOf(p) == h { HomeIsUnique(p, |ids|); }
        if HomeOf(p).InBlock? { WordOfSetWord(d[at], h.slot, x, HomeOf(p).slot); }
      } else {
        WordOfSetWord(d[at], h.slot, x, h.slot);
      }
    }
  }

  // Only index blocks matter to the flat list.
  lemma IndexedFrame(n: InodeRec, d: seq<Block>, d': seq<Block>, ids: seq<nat>)
    requires Indexed(n, d, ids) && |d'| == |d|
    requires forall p :: 0 <= p < |ids| && IsIndex(p) ==> d'[ids[p]] == d[ids[p]]
    ensures Indexed(n, d', ids)
  {
    forall p | 0 <= p < |ids| ensures StoredAt(n, d', ids, p) {
      assert StoredAt(n, d, ids, p);
    }
  }

  // The id list of an inode is determined by its length.
  lemma {:induction false} IndexedIsUnique(n: InodeRec, d: seq<Block>, ids: seq<nat>, ids': seq<nat>)
    requires Indexed(n, d, ids) && Indexed(n, d, ids') && |ids| == |ids'|
    ensures ids == ids'
  {
    forall p | 0 <= p < |ids| ensures ids[p] == ids'[p] {
      IndexedAgree(n, d, ids, ids', p);
    }
  }

  lemma {:induction false} IndexedAgree(n: InodeRec, d: seq<Block>, ids: seq<nat>, ids': seq<nat>, p: nat)
    requires Indexed(n, d, ids) && Indexed(n, d, ids') && p < |ids| && p < |ids'|
    ensures ids[p] == ids'[p]
    decreases p
  {
    assert StoredAt(n, d, ids, p) && StoredAt(n, d, ids', p);
    if HomeOf(p).InBlock? { IndexedAgree(n, d, ids, ids', HomeOf(p).parent); }
  }

  /** DiskInode::get_block_id. */
  function GetBlockId(n: InodeRec, d: seq<Block>, i: nat): nat
    requires n.WellFormed() && i < INDIRECT2_BOUND
    requires DIRECT_COUNT <= i < INDIRECT1_BOUND ==> n.indirect1 < |d|
    requires i >= INDIRECT1_BOUND ==>
               n.indirect2 < |d| && Word(d[n.indirect2], (i - INDIRECT1_BOUND) / INDIRECT1_COUNT) < |d|
  {
    if i < DIRECT_COUNT then n.direct[i]
    else if i < INDIRECT1_BOUND then Word(d[n.indirect1], i - DIRECT_COUNT)
    else
      var last := i - INDIRECT1_BOUND;
      Word(d[Word(d[n.indirect2], last / INDIRECT1_COUNT)], last % INDIRECT1_COUNT)
  }

  // The tree walk finds the data id at its closed-form position in the flat list.
  lemma BlockIdIsFlat(n: InodeRec, d: seq<Block>, ids: seq<nat>, i: nat)
    requires Indexed(n, d, ids) && i < INDIRECT2_BOUND && Pos(i) < |ids|
    ensures DIRECT_COUNT <= i < INDIRECT1_BOUND ==> n.indirect1 < |d|
    ensures i >= INDIRECT1_BOUND ==>
              n.indirect2 < |d| && Word(d[n.indirect2], (i - INDIRECT1_BOUND) / INDIRECT1_COUNT) < |d|
    ensures GetBlockId(n, d, i) == ids[Pos(i)]
  {
    assert StoredAt(n, d, ids, Pos(i));
    if DIRECT_COUNT <= i < INDIRECT1_BOUND {
      assert StoredAt(n, d, ids, 28);
    } else if i >= INDIRECT1_BOUND {
      PosOfHigh(i);
      var a := (i - INDIRECT1_BOUND) / 128;
      assert HomeOf(Pos(i)) == InBlock(158 + 129 * a, (i - INDIRECT1_BOUND) % 128);
      assert StoredAt(n, d, ids, 157);
      assert StoredAt(n, d, ids, 158 + 129 * a);
    }
  }
}
