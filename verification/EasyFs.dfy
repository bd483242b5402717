/** EasyFileSystem: block and inode allocation over the cached device. */
module EasyFs {
  import opened Basics
  import opened Bytes
  import opened BlockCaches
  import opened Bitmaps
  import opened Layout
  import opened InodeTable
  import opened Geometries
  import opened FsState

  class EasyFileSystem {
    const cache: BlockCacheManager
    const inodeBitmap: Bitmap
    const dataBitmap: Bitmap
    const inodeAreaStart: nat
    const dataAreaStart: nat

    ghost const g: Geometry
    ghost var s: State

    /** EasyFileSystem::create: formats a device and makes the root directory. */
    constructor Create(cache: BlockCacheManager, total: nat, inodeBitmapBlocks: nat)
      requires cache.Calm() && cache.held == map[]
      requires Feasible(total, inodeBitmapBlocks) && |cache.disk| == total
      modifies cache.Repr
      ensures Valid() && fresh(cache.Repr - old(cache.Repr)) && cache.held == map[]
      ensures this.cache == cache && g == LayOut(total, inodeBitmapBlocks)
      ensures s == State([EmptyFile(DirectoryKind)], map[], {}, -1)
      ensures cache.device.blocks == cache.disk
    {
      hide BlockCacheManager.Valid, FsInv;
      var layout := LayOut(total, inodeBitmapBlocks);
      LayOutIsOk(total, inodeBitmapBlocks);
      this.cache := cache;
      inodeBitmap := new Bitmap(1, inodeBitmapBlocks);
      dataBitmap := new Bitmap(1 + inodeBitmapBlocks + layout.inodeAreaBlocks, layout.dataBitmapBlocks);
      inodeAreaStart := 1 + inodeBitmapBlocks;
      dataAreaStart := 1 + inodeBitmapBlocks + layout.inodeAreaBlocks + layout.dataBitmapBlocks;
      g := layout;
      s := State([EmptyFile(DirectoryKind)], map[], {}, -1);
      new;
      Format(layout);
    }

    // The writes of create, up to the final sync.
    method Format(layout: Geometry)
      requires cache.Calm() && cache.held == map[] && this !in cache.Repr
      requires layout == g && g.Ok() && |cache.disk| == g.total && Wired()
      requires s == State([EmptyFile(DirectoryKind)], map[], {}, -1)
      modifies cache.Repr
      ensures Valid() && fresh(cache.Repr - old(cache.Repr)) && cache.held == map[]
      ensures cache.device.blocks == cache.disk
    {
      hide BlockCacheManager.Valid, FsInv, Bit, EncodeSuper, EncodeInode;
      ClearBlocks(cache);
      ghost var d0 := cache.disk;
      var super := cache.Peek(0);
      cache.PutIn(0, EncodeSuper(super, layout));
      ghost var d1 := cache.disk;
      ZeroBits(g, d0, d1);
      assert !Bit(d1, 1, 0);
      var root := inodeBitmap.Alloc(cache);
      assert root == Some(0);
      ghost var d2 := cache.disk;
      var pos := DiskInodePos(0);
      var block := cache.Peek(pos.0);
      cache.PutIn(pos.0, EncodeInode(block, 0, EmptyRec(DirectoryKind)));
      FreshInv(g, d0, d2);
      cache.SyncAll();
    }

    /** EasyFileSystem::open on a device that holds the file system st. */
    constructor Open(cache: BlockCacheManager, ghost geo: Geometry, ghost st: State)
      requires cache.Calm() && cache.held == map[]
      requires FsInv(geo, cache.disk, st)
      modifies cache.Repr
      ensures Valid() && fresh(cache.Repr - old(cache.Repr)) && cache.held == map[]
      ensures this.cache == cache && cache.disk == old(cache.disk)
      ensures g == geo && s == st
    {
      hide BlockCacheManager.Valid;
      var super := cache.Peek(0);
      var read := DecodeSuper(super);
      var total := read.value.inodeBitmapBlocks + read.value.inodeAreaBlocks;
      this.cache := cache;
      inodeBitmap := new Bitmap(1, read.value.inodeBitmapBlocks);
      dataBitmap := new Bitmap(1 + total, read.value.dataBitmapBlocks);
      inodeAreaStart := 1 + read.value.inodeBitmapBlocks;
      dataAreaStart := 1 + total + read.value.dataBitmapBlocks;
      g := geo;
      s := st;
    }

    ghost predicate Wired() {
      && inodeBitmap.start == 1 && inodeBitmap.blocks == g.inodeBitmapBlocks
      && dataBitmap.start == g.DataBitmapStart() && dataBitmap.blocks == g.dataBitmapBlocks
      && inodeAreaStart == g.InodeAreaStart() && dataAreaStart == g.DataAreaStart()
    }

    ghost predicate Valid()
      reads this, cache, cache.Repr
    {
      && cache.Calm() && this !in cache.Repr
      && Wired()
      && FsInv(g, cache.disk, s)
    }

    // The only handle out, if any, is on a block of the inode area.
    ghost predicate HoldsInodeOnly()
      reads this, cache
    {
      && |cache.held| <= 1
      && forall b :: b in cache.held ==> inodeAreaStart <= b < g.DataBitmapStart()
    }

    /** get_disk_inode_pos. */
    function DiskInodePos(k: nat): (pos: (nat, nat))
      requires Wired()
      ensures pos == InodePos(g, k) && InodeNumber(g, pos.0, pos.1) == k
    {
      InodeNumberInverts(g, k);
      (inodeAreaStart + k / INODES_PER_BLOCK, (k % INODES_PER_BLOCK) * INODE_SZ)
    }

    /** alloc_data: a zeroed block on the device that no file uses. */
    method AllocData() returns (b: nat)
      requires Valid() && HoldsInodeOnly()
      requires |s.Used()| < g.dataAreaBlocks
      modifies this, cache.Repr
      ensures Valid() && fresh(cache.Repr - old(cache.Repr)) && cache.held == old(cache.held)
      ensures b !in old(s).Used() && s == old(s).(loose := old(s).loose + {b})
      ensures SameFrom(old(cache.disk), cache.disk, dataAreaStart, g.total)
      ensures b < |cache.disk| == g.total && cache.disk[b] == ZERO_BLOCK
    {
      hide BlockCacheManager.Valid, FilesOk, Owned, Table, InodeBits, DataBits, FreeIsZero, Bit, DecodeSuper;
      ghost var d := cache.disk;
      var r := dataBitmap.Alloc(cache);
      match r {
        case None =>
          FirstFitOnDevice(g, d, s, dataBitmap.blocks * BLOCK_BITS);
          assert false;
        case Some(j) =>
          FirstFitOnDevice(g, d, s, j);
          AllocStep(g, d, cache.disk, s, j);
          b := j + dataAreaStart;
          s := s.(loose := s.loose + {b});
      }
    }

    /** dealloc_data: zeroes a block and returns it to the bitmap. */
    method DeallocData(b: nat)
      requires Valid() && HoldsInodeOnly()
      requires b in s.loose
      modifies this, cache.Repr
      ensures Valid() && fresh(cache.Repr - old(cache.Repr)) && cache.held == old(cache.held)
      ensures s == old(s).(loose := old(s).loose - {b})
    {
      hide BlockCacheManager.Valid, FilesOk, Owned, Table, InodeBits, FreeIsZero, Bit, DecodeSuper;
      ghost var d := cache.disk;
      assert b in s.Used();
      cache.PutIn(b, ZERO_BLOCK);
      LooseBitIsSet(g, d, s, b);
      dataBitmap.Dealloc(cache, b - dataAreaStart);
      DeallocStep(g, d, cache.disk, s, b);
      s := s.(loose := s.loose - {b});
    }

    /** alloc_inode: the next inode number; the caller writes its record. */
    method AllocInode() returns (k: nat)
      requires Valid() && cache.held == map[]
      requires |s.files| < g.InodeCount()
      modifies cache.Repr
      ensures cache.Calm() && fresh(cache.Repr - old(cache.Repr)) && cache.held == old(cache.held)
      ensures k == |s.files|
      ensures g.Ok() && |cache.disk| == g.total
      ensures FlippedOnly(old(cache.disk), cache.disk, 1, g.inodeBitmapBlocks, k) && Bit(cache.disk, 1, k)
    {
      hide BlockCacheManager.Valid, FilesOk, Owned, Table, DataBits, FreeIsZero, Bit, DecodeSuper;
      assert !Bit(cache.disk, 1, |s.files|);
      var r := inodeBitmap.Alloc(cache);
      k := r.value;
      NextInode(g, old(cache.disk), s, k);
    }
  }

  lemma LooseBitIsSet(g: Geometry, d: seq<Block>, s: State, b: nat)
    requires FsInv(g, d, s) && b in s.loose
    ensures g.DataAreaStart() <= b < |d|
    ensures b - g.DataAreaStart() < g.dataBitmapBlocks * BLOCK_BITS
    ensures Bit(d[b := ZERO_BLOCK], g.DataBitmapStart(), b - g.DataAreaStart())
  {
    hide FilesOk, Owned, Table, InodeBits, FreeIsZero;
    assert b in s.Used();
    var j := b - g.DataAreaStart();
    assert Bit(d, g.DataBitmapStart(), j);
  }

  /** The loop that zeroes every block of the device. */
  method ClearBlocks(cache: BlockCacheManager)
    requires cache.Calm() && cache.held == map[]
    modifies cache.Repr
    ensures cache.Calm() && fresh(cache.Repr - old(cache.Repr)) && cache.held == map[]
    ensures |cache.disk| == |old(cache.disk)|
    ensures forall b :: 0 <= b < |cache.disk| ==> cache.disk[b] == ZERO_BLOCK
  {
    hide BlockCacheManager.Valid;
    var total := cache.BlockCount();
    var i := 0;
    while i < total
      invariant 0 <= i <= total == |cache.disk| == |old(cache.disk)|
      invariant cache.Calm() && fresh(cache.Repr - old(cache.Repr)) && cache.held == map[]
      invariant forall b :: 0 <= b < i ==> cache.disk[b] == ZERO_BLOCK
    {
      cache.PutIn(i, ZERO_BLOCK);
      i := i + 1;
    }
  }

  lemma ZeroBlockBits(j: nat)
    requires j < BLOCK_BITS
    ensures !BlockBit(ZERO_BLOCK, j)
  {
    assert ZERO_BLOCK[8 * (j / 64)..8 * (j / 64) + 8] == Zeros(8);
    LeNatOfZeros(8);
    ZeroWordBits(j % 64);
  }

  lemma ZeroWordBits(k: nat)
    ensures !BitOf(0, k)
  {
  }

  // A cleared device has every bitmap bit clear, super block or not.
  lemma ZeroBits(g: Geometry, d0: seq<Block>, d1: seq<Block>)
    requires g.Ok() && |d0| == |d1| == g.total
    requires forall b :: 0 <= b < |d0| ==> d0[b] == ZERO_BLOCK
    requires forall b :: 1 <= b < |d1| ==> d1[b] == ZERO_BLOCK
    ensures forall k :: 0 <= k < g.InodeCount() ==> !Bit(d1, 1, k)
    ensures forall j :: 0 <= j < g.dataBitmapBlocks * BLOCK_BITS ==> !Bit(d1, g.DataBitmapStart(), j)
  {
    forall k | 0 <= k < g.InodeCount() ensures !Bit(d1, 1, k) {
      ZeroBlockBits(k % BLOCK_BITS);
    }
    forall j | 0 <= j < g.dataBitmapBlocks * BLOCK_BITS ensures !Bit(d1, g.DataBitmapStart(), j) {
      ZeroBlockBits(j % BLOCK_BITS);
    }
  }

  // The freshly formatted device satisfies the invariant with an empty root directory.
  lemma FreshInv(g: Geometry, d0: seq<Block>, d2: seq<Block>)
    requires g.Ok() && |d0| == g.total
    requires forall b :: 0 <= b < |d0| ==> d0[b] == ZERO_BLOCK
    requires var d1 := d0[0 := EncodeSuper(ZERO_BLOCK, g)];
             FlippedOnly(d1, d2, 1, g.inodeBitmapBlocks, 0) && Bit(d2, 1, 0)
    ensures FsInv(g, PutInode(g, d2, 0, EmptyRec(DirectoryKind)),
                  State([EmptyFile(DirectoryKind)], map[], {}, -1))
  {
    hide Bit, DecodeInode, EncodeInode, EncodeSuper, DecodeSuper;
    var d1 := d0[0 := EncodeSuper(ZERO_BLOCK, g)];
    var f := EmptyFile(DirectoryKind);
    var s := State([f], map[], {}, -1);
    var d := PutInode(g, d2, 0, f.rec);
    DecodeOfEncodeSuper(ZERO_BLOCK, g);
    ZeroBits(g, d0, d1);
    EmptyFileOk(d, f.rec);
    InodeAtOfPutInode(g, d2, 0, f.rec, 0);
    assert InodeBits(g, d2, 1);
    InodeBitsFrame(g, d2, d, 1);
    assert DataBits(g, d1, {});
    DataBitsFrame(g, d1, d, {});
    assert s.Used() == {};
  }
}
