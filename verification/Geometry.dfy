/** How a device is split into regions, and the super block that records it. */
module Geometries {
  import opened Basics
  import opened Bytes
  import opened InodeTable
  import opened Bitmaps

  const EFS_MAGIC := 0x3b800001

  datatype Geometry = Geometry(
    total: nat,
    inodeBitmapBlocks: nat,
    inodeAreaBlocks: nat,
    dataBitmapBlocks: nat,
    dataAreaBlocks: nat)
  {
    function InodeAreaStart(): nat { 1 + inodeBitmapBlocks }
    function DataBitmapStart(): nat { 1 + inodeBitmapBlocks + inodeAreaBlocks }
    function DataAreaStart(): nat { 1 + inodeBitmapBlocks + inodeAreaBlocks + dataBitmapBlocks }
    function InodeCount(): nat { inodeBitmapBlocks * BLOCK_BITS }

    // Five adjoining regions fill the device; the bitmaps cover their areas.
    ghost predicate Ok() {
      && total == DataAreaStart() + dataAreaBlocks
      && total < U32_LIMIT
      && 1 <= inodeBitmapBlocks
      && InodeCount() == inodeAreaBlocks * INODES_PER_BLOCK
      && dataAreaBlocks <= dataBitmapBlocks * BLOCK_BITS
    }
  }

  // EasyFileSystem::create can lay out a device of this size.
  predicate Feasible(total: nat, inodeBitmapBlocks: nat) {
    1 <= inodeBitmapBlocks && 1 + inodeBitmapBlocks + 1024 * inodeBitmapBlocks <= total < U32_LIMIT
  }

  /** The arithmetic of EasyFileSystem::create. */
  function LayOut(total: nat, inodeBitmapBlocks: nat): (g: Geometry)
    requires Feasible(total, inodeBitmapBlocks)
  {
    var inodeNum := inodeBitmapBlocks * BLOCK_BITS;
    var inodeAreaBlocks := (inodeNum * INODE_SZ + BLOCK_SZ - 1) / BLOCK_SZ;
    var inodeTotal := inodeBitmapBlocks + inodeAreaBlocks;
    var dataTotal := total - 1 - inodeTotal;
    var dataBitmapBlocks := (dataTotal + 4096) / 4097;
    Geometry(total, inodeBitmapBlocks, inodeAreaBlocks, dataBitmapBlocks, dataTotal - dataBitmapBlocks)
  }

  // The layout tiles the device, and its data bitmap is the smallest that covers the data area.
  lemma LayOutIsOk(total: nat, inodeBitmapBlocks: nat)
    requires Feasible(total, inodeBitmapBlocks)
    ensures LayOut(total, inodeBitmapBlocks).Ok()
    ensures var g := LayOut(total, inodeBitmapBlocks);
            forall m :: 0 <= m < g.dataBitmapBlocks ==>
              m * BLOCK_BITS < g.total - g.DataBitmapStart() - m
  {
    var g := LayOut(total, inodeBitmapBlocks);
    assert g.inodeAreaBlocks == 1024 * inodeBitmapBlocks;
    var dataTotal := total - 1 - 1025 * inodeBitmapBlocks;
    assert 4097 * g.dataBitmapBlocks <= dataTotal + 4096;
    assert 4097 * g.dataBitmapBlocks >= dataTotal;
  }

  // ----- positions of inodes

  /** get_disk_inode_pos: the block and the byte offset of inode k. */
  function InodePos(g: Geometry, k: nat): (nat, nat) {
    (g.InodeAreaStart() + k / INODES_PER_BLOCK, (k % INODES_PER_BLOCK) * INODE_SZ)
  }

  /** get_ino: the inode stored at a block and a byte offset. */
  function InodeNumber(g: Geometry, block: nat, offset: nat): nat
    requires g.InodeAreaStart() <= block
  {
    (block - g.InodeAreaStart()) * INODES_PER_BLOCK + offset / INODE_SZ
  }

  lemma InodeNumberInverts(g: Geometry, k: nat)
    ensures InodeNumber(g, InodePos(g, k).0, InodePos(g, k).1) == k
    ensures k < g.InodeCount() && g.Ok() ==> InodePos(g, k).0 < g.DataBitmapStart()
  {
  }

  /** The inodes lie one after another in the inode area, and none crosses a block. */
  lemma InodesAreContiguous(g: Geometry, k: nat)
    ensures var pos := InodePos(g, k);
            BLOCK_SZ * pos.0 + pos.1 == BLOCK_SZ * g.InodeAreaStart() + INODE_SZ * k && pos.1 + INODE_SZ <= BLOCK_SZ
  {
  }

  // ----- the super block

  function SuperWords(g: Geometry): seq<nat> {
    [EFS_MAGIC, g.total, g.inodeBitmapBlocks, g.inodeAreaBlocks, g.dataBitmapBlocks, g.dataAreaBlocks]
  }

  /** SuperBlock::initialize on block b. */
  function EncodeSuper(b: Block, g: Geometry): Block {
    PutWords(b, 0, SuperWords(g))
  }

  // What open reads back; None when the magic number is wrong.
  function DecodeSuper(b: Block): Option<Geometry> {
    if Word(b, 0) != EFS_MAGIC then None
    else Some(Geometry(Word(b, 1), Word(b, 2), Word(b, 3), Word(b, 4), Word(b, 5)))
  }

  lemma DecodeOfEncodeSuper(b: Block, g: Geometry)
    requires g.Ok()
    ensures DecodeSuper(EncodeSuper(b, g)) == Some(g)
  {
    hide Word, PutWords;
    forall j | 0 <= j < 6 ensures Word(EncodeSuper(b, g), j) == SuperWords(g)[j] {
      WordOfPutWords(b, 0, SuperWords(g), j);
    }
  }
}
