/** Inodes as files: growing, writing, reading and clearing, each as one change of a byte sequence. */
module Vfs {
  import opened Basics
  import opened Bytes
  import opened BlockCaches
  import opened Bitmaps
  import opened Layout
  import opened Files
  import opened DiskInodes
  import opened InodeTable
  import opened Geometries
  import opened FsState
  import opened EasyFs
  import opened Directories
  import opened FsSpec

  ghost function ContentsOf(s: State): (cs: Contents)
    ensures |cs| == |s.files|
  {
    seq(|s.files|, k requires 0 <= k < |s.files| => s.files[k].content)
  }

  // ----- growing a file by allocated blocks

  // The blocks v have just been allocated for file k of s.
  ghost predicate Reserved(g: Geometry, d: seq<Block>, s: State, v: seq<nat>) {
    && FsInv(g, d, s)
    && 0 <= s.open < |s.files|
    && s.loose == SetOf(v) && Distinct(v)
    && forall p :: 0 <= p < |v| ==> v[p] < |d| && d[v[p]] == ZERO_BLOCK
  }

  lemma GrowReady(g: Geometry, d: seq<Block>, s: State, v: seq<nat>, newSize: nat)
    requires Reserved(g, d, s, v)
    requires var f := s.files[s.open];
             f.rec.size <= newSize <= MAX_SIZE && |f.ids| + |v| == TotalBlocks(newSize)
    ensures var f := s.files[s.open];
            && f.rec.WellFormed()
            && f.rec.size == |f.content| && |f.ids| == TotalBlocks(f.rec.size)
            && Grown(f.rec, d, d, f.ids + v, |f.ids|)
    ensures forall p :: 0 <= p < |s.files[s.open].ids + v| ==>
              g.DataAreaStart() <= (s.files[s.open].ids + v)[p]
  {
    hide InodeBits, DataBits, FreeIsZero, Table, DecodeSuper;
    var f := s.files[s.open];
    var all := f.ids + v;
    assert FileOk(d, f);
    assert all[..|f.ids|] == f.ids;
    FlatCountMax(DataBlocks(newSize));
    DistinctUnion(s, v);
    forall p | 0 <= p < |all| ensures g.DataAreaStart() <= all[p] < |d| {
      if p < |f.ids| {
        assert all[p] == f.ids[p];
        assert f.ids[p] in s.owner;
        assert all[p] in s.Used();
      } else {
        assert all[p] == v[p - |f.ids|];
        assert all[p] in SetOf(v);
        assert all[p] in s.Used();
      }
    }
  }

  lemma DistinctUnion(s: State, v: seq<nat>)
    requires Owned(s.files, s.owner) && s.owner.Keys !! s.loose && 0 <= s.open < |s.files|
    requires s.loose == SetOf(v) && Distinct(v) && Distinct(s.files[s.open].ids)
    ensures Distinct(s.files[s.open].ids + v)
  {
    var ids := s.files[s.open].ids;
    forall p, q | 0 <= p < |ids| && 0 <= q < |v| ensures ids[p] != v[q] {
      assert ids[p] in s.owner && v[q] in s.loose;
    }
  }

  // The file k of s after growth to newSize with blocks v, on the disk d'.
  lemma GrowDone(g: Geometry, d: seq<Block>, d': seq<Block>, s: State, v: seq<nat>, n: InodeRec, newSize: nat)
    requires Reserved(g, d, s, v)
    requires var f := s.files[s.open];
             && f.rec.size <= newSize <= MAX_SIZE && |f.ids| + |v| == TotalBlocks(newSize)
             && n.size == newSize && n.kind == f.rec.kind
             && Indexed(n, d', f.ids + v) && SameExceptIndex(d, d', f.ids + v)
    ensures var f := s.files[s.open];
            var f' := File(n, f.ids + v, Extended(f.content, newSize));
            && FsInv(g, d', WithFile(s, s.open, f'))
            && WithFile(s, s.open, f').Used() == s.Used()
            && WithFile(s, s.open, f').loose == {}
  {
    var f := s.files[s.open];
    var f' := File(n, f.ids + v, Extended(f.content, newSize));
    GrowReady(g, d, s, v, newSize);
    assert FileOk(d, f) && Distinct(f'.ids);
    hide InodeBits, DataBits, FreeIsZero, Table, DecodeSuper, Indexed;
    GrowStores(d, d', f.ids, v, f.content, newSize - |f.content|);
    assert f.content + Zeros(0) == f.content;
    IndexSameOutside(d, d', f'.ids);
    assert SetOf(f'.ids) == SetOf(f.ids) + SetOf(v);
    ReplaceStep(g, d, d', s, f');
  }

  lemma IndexSameOutside(d: seq<Block>, d': seq<Block>, ids: seq<nat>)
    requires SameExceptIndex(d, d', ids)
    ensures SameOutside(d, d', ids)
  {
  }

  // ----- changing the file under modification

  lemma OverwriteDone(g: Geometry, d: seq<Block>, d': seq<Block>, s: State, offset: nat, buf: seq<byte>)
    requires FsInv(g, d, s) && 0 <= s.open < |s.files| && s.loose == {}
    requires var f := s.files[s.open];
             && offset + |buf| <= |f.content|
             && FileOk(d', Overwritten(f, offset, buf)) && SameOutside(d, d', f.ids)
    ensures var f := s.files[s.open];
            var s' := s.(files := s.files[s.open := Overwritten(f, offset, buf)]);
            FsInv(g, d', s')
  {
    hide FileOk, InodeBits, DataBits, FreeIsZero, FilesOk, Table, DecodeSuper;
    var f := s.files[s.open];
    var f' := Overwritten(f, offset, buf);
    ReplaceStep(g, d, d', s, f');
    assert WithFile(s, s.open, f').owner == s.owner by {
      forall b | b in f.ids ensures b in s.owner && s.owner[b] == s.open {
        var p :| 0 <= p < |f.ids| && f.ids[p] == b;
        assert s.files[s.open].ids[p] in s.owner;
      }
    }
    assert WithFile(s, s.open, f').loose == {};
  }

  lemma ClearDone(g: Geometry, d: seq<Block>, s: State, n: InodeRec)
    requires FsInv(g, d, s) && 0 <= s.open < |s.files| && s.loose == {}
    requires n.WellFormed() && n.size == 0 && n.kind == s.files[s.open].rec.kind
    ensures var s' := WithFile(s, s.open, File(n, [], []));
            && FsInv(g, d, s')
            && s'.loose == SetOf(s.files[s.open].ids)
            && s'.Used() == s.Used()
  {
    hide InodeBits, DataBits, FreeIsZero, FilesOk, Table, DecodeSuper;
    EmptyFileOk(d, n);
    ReplaceStep(g, d, d, s, File(n, [], []));
  }

  class Inode {
    const blockId: nat
    const blockOffset: nat
    const fs: EasyFileSystem
    ghost const ino: nat

    constructor (blockId: nat, blockOffset: nat, fs: EasyFileSystem, ghost ino: nat)
      ensures this.blockId == blockId && this.blockOffset == blockOffset && this.fs == fs && this.ino == ino
    {
      this.blockId := blockId;
      this.blockOffset := blockOffset;
      this.fs := fs;
      this.ino := ino;
    }

    // This handle points at inode ino.
    ghost predicate At() {
      fs.Wired() && InodePos(fs.g, ino) == (blockId, blockOffset)
    }

    /** get_ino: the number of the inode at this position. */
    function GetIno(): (k: nat)
      requires At()
      ensures k == ino
    {
      InodeNumberInverts(fs.g, ino);
      (blockId - fs.inodeAreaStart) * INODES_PER_BLOCK + blockOffset / INODE_SZ
    }

    // Between operations: nothing loose, nothing open, nothing held.
    ghost predicate Ready()
      reads fs, fs.cache, fs.cache.Repr
    {
      && fs.Valid() && At() && ino < |fs.s.files|
      && fs.s.loose == {} && fs.s.open == -1
      && fs.cache.held == map[]
    }

    // Inside modify_disk_inode: this inode's block is held and its record lives in inode.
    ghost predicate Modifying(inode: DiskInode, h: BlockCache)
      reads inode, fs, fs.cache, fs.cache.Repr
    {
      && fs.Valid() && At() && ino < |fs.s.files|
      && fs.s.loose == {} && fs.s.open == ino
      && inode !in fs.cache.Repr && inode.Rec() == fs.s.files[ino].rec
      && h.blockId == blockId && fs.cache.OnlyOut(h)
    }

    // Inside read_disk_inode: this inode's block is held and inode is a view of its record.
    ghost predicate Reading(inode: DiskInode, h: BlockCache)
      reads inode, fs, fs.cache, fs.cache.Repr
    {
      && fs.Valid() && At() && ino < |fs.s.files|
      && fs.s.loose == {} && fs.s.open == -1
      && inode !in fs.cache.Repr && inode.Rec() == fs.s.files[ino].rec
      && h.blockId == blockId && fs.cache.OnlyOut(h)
    }

    method Lock() returns (inode: DiskInode, h: BlockCache)
      requires Ready()
      modifies fs.cache.Repr
      ensures fresh(fs.cache.Repr - old(fs.cache.Repr)) && fresh(inode)
      ensures Reading(inode, h)
      ensures fs.cache.disk == old(fs.cache.disk)
      ensures blockId < |old(fs.cache.device.blocks)|
      ensures fs.cache.held == map[blockId := Handle(h, old(fs.cache.device.blocks)[blockId])]
      ensures old(fs.cache.device.blocks) == fs.cache.disk ==> fs.cache.device.blocks == fs.cache.disk
    {
      hide BlockCacheManager.Valid, FsInv, DecodeInode;
      var cache := fs.cache;
      OpenStep(fs.g, cache.disk, fs.s, ino);
      InodeBlockOnDevice(fs.g, cache.disk, fs.s, ino);
      cache.SameSize();
      h := cache.Acquire(blockId);
      var b := cache.Read(h);
      inode := new DiskInode(DecodeInode(b, blockOffset / INODE_SZ));
    }

    method Unlock(h: BlockCache)
      requires fs.Valid() && At() && ino < |fs.s.files|
      requires fs.s.loose == {} && fs.s.open == -1
      requires h.blockId == blockId && fs.cache.OnlyOut(h)
      modifies fs.cache.Repr
      ensures fs.cache.Repr == old(fs.cache.Repr)
      ensures Ready() && fs.cache.disk == old(fs.cache.disk)
      ensures fs.cache.device.blocks == old(fs.cache.device.blocks)
    {
      hide BlockCacheManager.Valid, FsInv;
      HandleReturned(map[], fs.cache.held, h);
      fs.cache.Release(h);
    }

    // The file behind a locked inode is intact and its blocks can be locked.
    lemma ReadingFile(inode: DiskInode, h: BlockCache)
      requires Reading(inode, h) || Modifying(inode, h)
      ensures FileOk(fs.cache.disk, fs.s.files[ino]) && inode.Rec() == fs.s.files[ino].rec
      ensures inode.size == |fs.s.files[ino].content|
      ensures Unheld(fs.cache, fs.s.files[ino].ids)
    {
      hide BlockCacheManager.Valid, FsInv, FileOk;
      FileOf(fs.g, fs.cache.disk, fs.s, ino);
      InodeBlockOnDevice(fs.g, fs.cache.disk, fs.s, ino);
    }

    method Begin() returns (inode: DiskInode, h: BlockCache)
      requires Ready()
      modifies fs, fs.cache.Repr
      ensures fresh(fs.cache.Repr - old(fs.cache.Repr)) && fresh(inode)
      ensures Modifying(inode, h)
      ensures fs.s == old(fs.s).(open := ino) && fs.cache.disk == old(fs.cache.disk)
      ensures blockId < |old(fs.cache.device.blocks)|
      ensures old(fs.cache.device.blocks) == old(fs.cache.disk) ==> fs.cache.device.blocks == fs.cache.disk
      ensures fs.cache.held == map[blockId := Handle(h, old(fs.cache.device.blocks)[blockId])]
    {
      hide BlockCacheManager.Valid, FsInv;
      OpenStep(fs.g, fs.cache.disk, fs.s, ino);
      inode, h := Lock();
      fs.s := fs.s.(open := ino);
    }

    method End(inode: DiskInode, h: BlockCache)
      requires Modifying(inode, h)
      modifies fs, fs.cache.Repr
      ensures fresh(fs.cache.Repr - old(fs.cache.Repr))
      ensures Ready()
      ensures fs.s == old(fs.s).(open := -1)
      ensures fs.cache.device.blocks == old(fs.cache.device.blocks)
    {
      hide BlockCacheManager.Valid, FsInv, EncodeInode;
      var cache := fs.cache;
      ghost var d := cache.disk;
      CloseStep(fs.g, d, fs.s);
      var b := cache.Read(h);
      cache.Modify(h, EncodeInode(b, blockOffset / INODE_SZ, inode.Rec()));
      HandleReturned(map[], cache.held, h);
      cache.Release(h);
      fs.s := fs.s.(open := -1);
    }

    /** The loop of increase_size that allocates n blocks. */
    method Reserve(n: nat, inode: DiskInode, h: BlockCache) returns (v: seq<nat>)
      requires Modifying(inode, h)
      requires |fs.s.Used()| + n <= fs.g.dataAreaBlocks
      modifies fs, fs.cache.Repr
      ensures fresh(fs.cache.Repr - old(fs.cache.Repr)) && fs.cache.held == old(fs.cache.held)
      ensures fs.Valid()
      ensures |v| == n && fs.s == old(fs.s).(loose := SetOf(v))
      ensures |fs.s.Used()| == |old(fs.s).Used()| + n
      ensures Reserved(fs.g, fs.cache.disk, fs.s, v)
      ensures n == 0 ==> fs.cache.disk == old(fs.cache.disk) && fs.cache.device.blocks == old(fs.cache.device.blocks)
    {
      hide BlockCacheManager.Valid, FsInv, State.Used;
      var cache := fs.cache;
      v := [];
      assert SetOf(v) == {};
      InodeBlockOnDevice(fs.g, cache.disk, fs.s, ino);
      while |v| < n
        invariant |v| <= n
        invariant fs.Valid() && fs.HoldsInodeOnly()
        invariant fresh(cache.Repr - old(cache.Repr)) && cache.held == old(cache.held)
        invariant fs.s == old(fs.s).(loose := SetOf(v))
        invariant |fs.s.Used()| == |old(fs.s).Used()| + |v|
        invariant Reserved(fs.g, cache.disk, fs.s, v)
        invariant v == [] ==> cache.disk == old(cache.disk) && cache.device.blocks == old(cache.device.blocks)
      {
        ghost var d, s := cache.disk, fs.s;
        var b := fs.AllocData();
        ReserveOne(fs.g, d, cache.disk, s, fs.s, v, b);
        v := v + [b];
      }
    }

    /** increase_size. */
    method IncreaseSize(newSize: nat, inode: DiskInode, h: BlockCache)
      requires Modifying(inode, h)
      requires newSize <= MAX_SIZE
      requires |fs.s.Used()| + Needed(inode.size, newSize) <= fs.g.dataAreaBlocks
      modifies fs, inode, fs.cache.Repr
      ensures fresh(fs.cache.Repr - old(fs.cache.Repr))
      ensures Modifying(inode, h)
      ensures fs.cache.held == old(fs.cache.held)
      ensures fs.s.files == old(fs.s).files[ino := fs.s.files[ino]]
      ensures fs.s.files[ino].content == Extended(old(fs.s).files[ino].content, newSize)
      ensures old(fs.s).files[ino].ids <= fs.s.files[ino].ids
      ensures fs.s.files[ino].rec.kind == old(fs.s).files[ino].rec.kind
      ensures |fs.s.Used()| == |old(fs.s).Used()| + Needed(|old(fs.s).files[ino].content|, newSize)
      ensures DataBlocks(old(inode.size)) == DataBlocks(newSize) && old(fs.cache.device.blocks) == old(fs.cache.disk) ==>
                fs.cache.disk == old(fs.cache.disk) && fs.cache.device.blocks == fs.cache.disk
    {
      hide BlockCacheManager.Valid, FsInv, State.Used, Indexed, SameExceptIndex, TotalBlocks, Grown;
      hide WithFile, SetOf, Extended, Reserved, FileOk, InodeRec.WellFormed, Needed;
      var cache := fs.cache;
      ghost var f := fs.s.files[ino];
      assert inode.size == |f.content| && |f.ids| == TotalBlocks(inode.size) by {
        FileOf(fs.g, cache.disk, fs.s, ino);
      }
      if newSize < inode.size {
        return;
      }
      SameBlocksNeedNone(inode.size, newSize);
      var v := Reserve(Needed(inode.size, newSize), inode, h);
      ghost var d, s := cache.disk, fs.s;
      GrowReady(fs.g, d, s, v, newSize);
      InodeBlockOnDevice(fs.g, d, s, ino);
      inode.IncreaseSize(newSize, v, cache, f.ids);
      GrowDone(fs.g, d, cache.disk, s, v, inode.Rec(), newSize);
      fs.s := WithFile(s, ino, File(inode.Rec(), f.ids + v, Extended(f.content, newSize)));
    }

    /** write_at: the file becomes its old bytes, zero-extended to the end of the write, overwritten by buf. */
    method WriteAt(offset: nat, buf: seq<byte>) returns (written: nat)
      requires Ready()
      requires Reaches(|fs.s.files[ino].content|, offset, buf) && offset + |buf| <= MAX_SIZE
      requires |fs.s.Used()| + Needed(|fs.s.files[ino].content|, offset + |buf|) <= fs.g.dataAreaBlocks
      modifies fs, fs.cache.Repr
      ensures fresh(fs.cache.Repr - old(fs.cache.Repr))
      ensures Ready() && fs.cache.device.blocks == fs.cache.disk
      ensures written == |buf|
      ensures fs.s.files == old(fs.s).files[ino := fs.s.files[ino]]
      ensures fs.s.files[ino].content == Written(old(fs.s).files[ino].content, offset, buf)
      ensures old(fs.s).files[ino].ids <= fs.s.files[ino].ids
      ensures fs.s.files[ino].rec.kind == old(fs.s).files[ino].rec.kind
      ensures |fs.s.Used()| == |old(fs.s).Used()| + Needed(|old(fs.s).files[ino].content|, offset + |buf|)
    {
      hide BlockCacheManager.Valid, FsInv, Needed, Extended, Written, Overwritten, State.Used;
      assert fs.s.files[ino].rec.size == |fs.s.files[ino].content| by { FileOf(fs.g, fs.cache.disk, fs.s, ino); }
      var inode, h := Begin();
      UsedWhenOpen(old(fs.s), fs.s);
      IncreaseSize(offset + |buf|, inode, h);
      ghost var s := fs.s;
      written := Overwrite(offset, buf, inode, h);
      OverwrittenIsWritten(s.files[ino], old(fs.s).files[ino].content, offset, buf);
      UsedWhenOpen(s, fs.s);
      End(inode, h);
      UsedWhenOpen(s, fs.s);
      fs.cache.SyncAll();
    }

    /** disk_inode.write_at inside modify_disk_inode. */
    method Overwrite(offset: nat, buf: seq<byte>, inode: DiskInode, h: BlockCache) returns (written: nat)
      requires Modifying(inode, h)
      requires offset + |buf| <= |fs.s.files[ino].content| && BlockStart(offset) < |fs.s.files[ino].content|
      modifies fs, fs.cache.Repr
      ensures fresh(fs.cache.Repr - old(fs.cache.Repr))
      ensures Modifying(inode, h)
      ensures fs.cache.held == old(fs.cache.held)
      ensures written == |buf|
      ensures offset % BLOCK_SZ + |buf| <= BLOCK_SZ && old(fs.cache.device.blocks) == old(fs.cache.disk) ==>
                fs.cache.device.blocks == old(fs.cache.device.blocks)
      ensures fs.s == old(fs.s).(files := old(fs.s).files[ino := Overwritten(old(fs.s).files[ino], offset, buf)])
    {
      hide BlockCacheManager.Valid, FsInv, FileOk, TotalBlocks, SameOutside, Overwritten;
      var cache := fs.cache;
      ghost var d, s, f := cache.disk, fs.s, fs.s.files[ino];
      FileOf(fs.g, d, s, ino);
      InodeBlockOnDevice(fs.g, d, s, ino);
      written := inode.WriteAt(offset, buf, cache, f);
      assert buf[..written] == buf;
      OverwriteDone(fs.g, d, cache.disk, s, offset, buf);
      fs.s := s.(files := s.files[ino := Overwritten(f, offset, buf)]);
    }

    /** read_at: the clipped slice of the file, into buf. */
    method ReadAt(offset: nat, buf: array<byte>) returns (n: nat)
      requires Ready() && buf !in fs.cache.Repr
      modifies buf, fs.cache.Repr
      ensures fresh(fs.cache.Repr - old(fs.cache.Repr))
      ensures Ready() && fs.cache.disk == old(fs.cache.disk)
      ensures old(fs.cache.device.blocks) == fs.cache.disk ==> fs.cache.device.blocks == fs.cache.disk
      ensures SameAt(old(fs.cache.device.blocks), fs.cache.device.blocks, blockId)
      ensures var size := |fs.s.files[ino].content|;
              n == if offset >= size then 0 else if buf.Length <= size - offset then buf.Length else size - offset
      ensures forall i :: 0 <= i < n ==> buf[i] == fs.s.files[ino].content[offset + i]
      ensures n == |ReadSlice(fs.s.files[ino].content, offset, buf.Length)|
      ensures buf[..n] == ReadSlice(fs.s.files[ino].content, offset, buf.Length)
      ensures buf[n..] == old(buf[n..])
    {
      hide BlockCacheManager.Valid, FsInv, FileOk, TotalBlocks, ReadSlice;
      var inode, h := Lock();
      ReadingFile(inode, h);
      n := inode.ReadAt(offset, buf, fs.cache, fs.s.files[ino]);
      fs.cache.NotWrittenBack(h);
      Unlock(h);
    }

    /** clear: the file becomes empty and every block it had is free and zero again. */
    method Clear()
      requires Ready()
      modifies fs, fs.cache.Repr
      ensures fresh(fs.cache.Repr - old(fs.cache.Repr))
      ensures Ready() && fs.cache.device.blocks == fs.cache.disk
      ensures fs.s.files == old(fs.s).files[ino := fs.s.files[ino]]
      ensures fs.s.files[ino].content == [] && fs.s.files[ino].ids == []
      ensures fs.s.files[ino].rec.kind == old(fs.s).files[ino].rec.kind
      ensures fs.s.Used() == old(fs.s).Used() - SetOf(old(fs.s).files[ino].ids)
    {
      hide BlockCacheManager.Valid, FsInv, SetOf;
      var inode, h := Begin();
      Empty(inode, h);
      End(inode, h);
      fs.cache.SyncAll();
    }

    /** The closure that clear runs on the disk inode. */
    method Empty(inode: DiskInode, h: BlockCache)
      requires Modifying(inode, h)
      modifies fs, inode, fs.cache.Repr
      ensures fresh(fs.cache.Repr - old(fs.cache.Repr))
      ensures Modifying(inode, h)
      ensures fs.s.files == old(fs.s).files[ino := fs.s.files[ino]]
      ensures fs.s.files[ino].content == [] && fs.s.files[ino].ids == []
      ensures fs.s.files[ino].rec.kind == old(fs.s).files[ino].rec.kind
      ensures fs.s.Used() == old(fs.s).Used() - SetOf(old(fs.s).files[ino].ids)
    {
      hide BlockCacheManager.Valid, FsInv, FileOk, Indexed, Distinct, TotalBlocks, SetOf, WithFile, State.Used;
      var cache := fs.cache;
      ghost var d, s, f := cache.disk, fs.s, fs.s.files[ino];
      FileOf(fs.g, d, s, ino);
      InodeBlockOnDevice(fs.g, d, s, ino);
      ClearReady(d, f);
      var v := inode.ClearSize(cache, f.ids);
      ClearDone(fs.g, d, s, inode.Rec());
      fs.s := WithFile(s, ino, File(inode.Rec(), [], []));
      assert |v| == TotalBlocks(|f.content|);
      FreeAll(v);
    }

    /** The loop of clear that deallocates every block of v. */
    method FreeAll(v: seq<nat>)
      requires fs.Valid() && fs.HoldsInodeOnly()
      requires fs.s.loose == SetOf(v) && Distinct(v)
      modifies fs, fs.cache.Repr
      ensures fresh(fs.cache.Repr - old(fs.cache.Repr)) && fs.cache.held == old(fs.cache.held)
      ensures fs.Valid()
      ensures fs.s == old(fs.s).(loose := {})
      ensures fs.s.Used() == old(fs.s).Used() - SetOf(v)
    {
      hide BlockCacheManager.Valid, FsInv;
      var cache := fs.cache;
      var i := 0;
      assert v[0..] == v;
      while i < |v|
        invariant 0 <= i <= |v|
        invariant fs.Valid() && fs.HoldsInodeOnly()
        invariant fresh(cache.Repr - old(cache.Repr)) && cache.held == old(cache.held)
        invariant fs.s == old(fs.s).(loose := SetOf(v[i..]))
      {
        assert v[i..] == [v[i]] + v[i + 1..];
        assert SetOf(v[i + 1..]) == SetOf(v[i..]) - {v[i]};
        fs.DeallocData(v[i]);
        i := i + 1;
      }
      LooseGone(fs.g, old(cache.disk), old(fs.s), fs.s, v);
    }

    // ----- directories

    ghost predicate IsDir()
      requires ino < |fs.s.files|
      reads fs
    {
      fs.s.files[ino].rec.kind == DirectoryKind && DirOk(fs.s.files[ino].content)
    }

    ghost function Listing(): seq<Dirent>
      requires ino < |fs.s.files|
      reads fs
    {
      Entries(fs.s.files[ino].content)
    }

    /** find. */
    method Find(name: Name) returns (r: Option<Inode>)
      requires Ready() && IsDir()
      modifies fs.cache.Repr
      ensures fresh(fs.cache.Repr - old(fs.cache.Repr))
      ensures Ready() && fs.cache.disk == old(fs.cache.disk)
      ensures old(fs.cache.device.blocks) == fs.cache.disk ==> fs.cache.device.blocks == fs.cache.disk
      ensures SameAt(old(fs.cache.device.blocks), fs.cache.device.blocks, blockId)
      ensures r.None? <==> Lookup(Listing(), name).None?
      ensures r.Some? ==> Lookup(Listing(), name) == Some(r.value.ino)
      ensures r.Some? ==> r.value.fs == fs && r.value.At()
    {
      hide BlockCacheManager.Valid, FsInv, FileOk, DirOk, Entries, Lookup;
      var k := LookUp(name);
      match k {
        case None => r := None;
        case Some(id) =>
          var pos := fs.DiskInodePos(id);
          var found := new Inode(pos.0, pos.1, fs, id);
          r := Some(found);
      }
    }

    /** find_inode_id under the lock of the directory's own inode. */
    method LookUp(name: Name) returns (r: Option<nat>)
      requires Ready() && IsDir()
      modifies fs.cache.Repr
      ensures fresh(fs.cache.Repr - old(fs.cache.Repr))
      ensures Ready() && fs.cache.disk == old(fs.cache.disk)
      ensures r == Lookup(Listing(), name)
      ensures old(fs.cache.device.blocks) == fs.cache.disk ==> fs.cache.device.blocks == fs.cache.disk
      ensures SameAt(old(fs.cache.device.blocks), fs.cache.device.blocks, blockId)
    {
      hide BlockCacheManager.Valid, FsInv, FileOk, DirOk, Entries, Lookup;
      var inode, h := Lock();
      ReadingFile(inode, h);
      r := FindInodeId(name, inode, fs.cache, fs.s.files[ino]);
      fs.cache.NotWrittenBack(h);
      Unlock(h);
    }

    /** get_nlink for the inode k at the given position. */
    method GetNlink(block: nat, offset: nat, ghost k: nat) returns (n: nat)
      requires Ready() && IsDir()
      requires InodePos(fs.g, k) == (block, offset)
      modifies fs.cache.Repr
      ensures fresh(fs.cache.Repr - old(fs.cache.Repr))
      ensures Ready() && fs.cache.disk == old(fs.cache.disk)
      ensures old(fs.cache.device.blocks) == fs.cache.disk ==> fs.cache.device.blocks == fs.cache.disk
      ensures SameAt(old(fs.cache.device.blocks), fs.cache.device.blocks, blockId)
      ensures n == Nlink(Listing(), k)
    {
      hide BlockCacheManager.Valid, FsInv, FileOk, DirOk, Entries, Lookup;
      var inode, h := Lock();
      ReadingFile(inode, h);
      n := CountLinks(block, offset, k, inode, fs, fs.s.files[ino]);
      fs.cache.NotWrittenBack(h);
      Unlock(h);
    }

    /** The closure shared by link and create: grow by one entry and write it. */
    method Append(e: Dirent)
      requires Ready() && IsDir() && Storable(e)
      requires |fs.s.files[ino].content| + DIRENT_SZ <= MAX_SIZE
      requires |fs.s.Used()| + Needed(|fs.s.files[ino].content|, |fs.s.files[ino].content| + DIRENT_SZ)
               <= fs.g.dataAreaBlocks
      modifies fs, fs.cache.Repr
      ensures fresh(fs.cache.Repr - old(fs.cache.Repr))
      ensures Ready()
      ensures SameAt(old(fs.cache.device.blocks), fs.cache.device.blocks, blockId)
      ensures |old(fs.s).files[ino].content| % BLOCK_SZ != 0 && old(fs.cache.device.blocks) == old(fs.cache.disk) ==>
                fs.cache.device.blocks == old(fs.cache.device.blocks)
      ensures fs.s.files == old(fs.s).files[ino := fs.s.files[ino]]
      ensures fs.s.files[ino].content == old(fs.s).files[ino].content + EncodeDirent(e)
      ensures fs.s.files[ino].rec.kind == old(fs.s).files[ino].rec.kind
      ensures |fs.s.Used()| == |old(fs.s).Used()|
        + Needed(|old(fs.s).files[ino].content|, |old(fs.s).files[ino].content| + DIRENT_SZ)
    {
      hide BlockCacheManager.Valid, FsInv, FileOk, Needed, TotalBlocks, Extended, EncodeDirent, Entries, State.Used;
      assert |fs.s.files[ino].content| % DIRENT_SZ == 0;
      NextEntry(|fs.s.files[ino].content|);
      hide DirOk, DataBlocks, BlockStart;
      var inode, h := Begin();
      ReadingFile(inode, h);
      var count := inode.size / DIRENT_SZ;
      var newSize := (count + 1) * DIRENT_SZ;
      UsedWhenOpen(old(fs.s), fs.s);
      IncreaseSize(newSize, inode, h);
      ghost var s := fs.s;
      var n := Overwrite(count * DIRENT_SZ, EncodeDirent(e), inode, h);
      UsedWhenOpen(s, fs.s);
      AppendIsWrite(old(fs.s).files[ino].content, EncodeDirent(e));
      ghost var s1 := fs.s;
      fs.cache.NotWrittenBack(h);
      End(inode, h);
      UsedWhenOpen(s1, fs.s);
    }

    /** link(ino, name). */
    method Link(target: nat, name: Name) returns (r: int)
      requires Ready() && IsDir() && Storable(Dirent(name, target))
      requires |fs.s.files[ino].content| + DIRENT_SZ <= MAX_SIZE
      requires |fs.s.Used()| + Needed(|fs.s.files[ino].content|, |fs.s.files[ino].content| + DIRENT_SZ)
               <= fs.g.dataAreaBlocks
      modifies fs, fs.cache.Repr
      ensures fresh(fs.cache.Repr - old(fs.cache.Repr))
      ensures Ready() && r == 0
      ensures SameAt(old(fs.cache.device.blocks), fs.cache.device.blocks, blockId)
      ensures |old(fs.s).files[ino].content| % BLOCK_SZ != 0 && old(fs.cache.device.blocks) == old(fs.cache.disk) ==>
                fs.cache.device.blocks == old(fs.cache.device.blocks)
      ensures fs.s.files == old(fs.s).files[ino := fs.s.files[ino]]
      ensures fs.s.files[ino].content == old(fs.s).files[ino].content + EncodeDirent(Dirent(name, target))
      ensures fs.s.files[ino].rec.kind == old(fs.s).files[ino].rec.kind
      ensures |fs.s.Used()| == |old(fs.s).Used()|
        + Needed(|old(fs.s).files[ino].content|, |old(fs.s).files[ino].content| + DIRENT_SZ)
    {
      Append(Dirent(name, target));
      r := 0;
    }

    /** The closure of unlink: blanks the first entry with this name. */
    method BlankEntry(name: Name)
      requires Ready() && IsDir()
      modifies fs, fs.cache.Repr
      ensures fresh(fs.cache.Repr - old(fs.cache.Repr))
      ensures Ready()
      ensures fs.s.files == old(fs.s).files[ino := fs.s.files[ino]]
      ensures fs.s.files[ino].content == Blanked(old(fs.s).files[ino].content, name)
      ensures fs.s.files[ino].rec.kind == old(fs.s).files[ino].rec.kind
    {
      hide BlockCacheManager.Valid, FsInv, FileOk, DirOk, Entries, EncodeDirent;
      var inode, h := Begin();
      ReadingFile(inode, h);
      ghost var f := fs.s.files[ino];
      var i := FindIndex(name, inode, fs.cache, f);
      if i < inode.size / DIRENT_SZ {
        BlankIsZeros();
        var n := Overwrite(DIRENT_SZ * i, EncodeDirent(BLANK), inode, h);
      }
      End(inode, h);
    }

    /** unlink. */
    method Unlink(name: Name) returns (r: int)
      requires Ready() && IsDir()
      requires forall e :: e in Listing() ==> e.ino < |fs.s.files|
      modifies fs, fs.cache.Repr
      ensures fresh(fs.cache.Repr - old(fs.cache.Repr))
      ensures Ready() && r == 0 && fs.cache.device.blocks == fs.cache.disk
      ensures |fs.s.files| == |old(fs.s).files|
      ensures ContentsOf(fs.s) == Unlinked(old(ContentsOf(fs.s)), ino, name)
      ensures SameKinds(old(fs.s), fs.s)
    {
      hide BlockCacheManager.Valid, FsInv, DirOk, Entries, Lookup, Nlink, Blanked;
      var found := Find(name);
      if found.Some? {
        LookupListed(Listing(), name);
        var n := GetNlink(found.value.blockId, found.value.blockOffset, found.value.ino);
        if n == 1 {
          found.value.Clear();
        }
      }
      EmptyDirOk();
      assert ContentsOf(fs.s) == Released(old(ContentsOf(fs.s)), ino, name);
      BlankEntry(name);
      fs.cache.SyncAll();
      r := 0;
    }

    /** Allocates an inode and initializes its record. */
    method NewInode(kind: Kind) returns (k: nat)
      requires Ready()
      requires |fs.s.files| < fs.g.InodeCount()
      modifies fs, fs.cache.Repr
      ensures fresh(fs.cache.Repr - old(fs.cache.Repr))
      ensures Ready() && k == |old(fs.s).files|
      ensures fs.s == old(fs.s).(files := old(fs.s).files + [EmptyFile(kind)])
    {
      hide BlockCacheManager.Valid, FsInv, Bit, EncodeInode, DecodeInode, FlippedOnly;
      ghost var d := fs.cache.disk;
      k := fs.AllocInode();
      ghost var d1 := fs.cache.disk;
      NewInodeStep(fs.g, d, d1, fs.s, kind);
      var pos := fs.DiskInodePos(k);
      InitRecord(pos.0, pos.1 / INODE_SZ, kind);
      fs.s := fs.s.(files := fs.s.files + [EmptyFile(kind)]);
    }

    /** The closure of create over the new inode's record. */
    method InitRecord(block: nat, slot: nat, kind: Kind)
      requires fs.cache.Calm() && block < |fs.cache.disk| && slot < INODES_PER_BLOCK
      requires fs.cache.held == map[]
      modifies fs.cache.Repr
      ensures fs.cache.Calm() && fresh(fs.cache.Repr - old(fs.cache.Repr)) && fs.cache.held == map[]
      ensures fs.cache.disk == old(fs.cache.disk)[block := EncodeInode(old(fs.cache.disk)[block], slot, EmptyRec(kind))]
    {
      hide BlockCacheManager.Valid, EncodeInode, DecodeInode;
      var h := fs.cache.Acquire(block);
      var b := fs.cache.Read(h);
      var inode := new DiskInode(DecodeInode(b, slot));
      inode.Initialize(kind);
      fs.cache.Modify(h, EncodeInode(b, slot, inode.Rec()));
      HandleReturned(map[], fs.cache.held, h);
      fs.cache.Release(h);
    }

    /** create: None when the name exists, otherwise a new empty file under that name. */
    method Create(name: Name) returns (r: Option<Inode>)
      requires Ready() && IsDir() && Storable(Dirent(name, |fs.s.files|))
      requires Lookup(Listing(), name).None? ==>
                 && |fs.s.files| < fs.g.InodeCount()
                 && |fs.s.files[ino].content| + DIRENT_SZ <= MAX_SIZE
                 && |fs.s.Used()| + Needed(|fs.s.files[ino].content|, |fs.s.files[ino].content| + DIRENT_SZ)
                    <= fs.g.dataAreaBlocks
      modifies fs, fs.cache.Repr
      ensures fresh(fs.cache.Repr - old(fs.cache.Repr))
      ensures Ready()
      ensures ContentsOf(fs.s) == Created(old(ContentsOf(fs.s)), ino, name)
      ensures r.None? <==> Lookup(old(Listing()), name).Some?
      ensures r.None? ==> fs.s == old(fs.s)
      ensures r.None? ==> fs.cache.disk == old(fs.cache.disk)
      ensures r.None? && old(fs.cache.device.blocks) == fs.cache.disk ==> fs.cache.device.blocks == fs.cache.disk
      ensures r.None? ==> SameAt(old(fs.cache.device.blocks), fs.cache.device.blocks, blockId)
      ensures r.Some? ==> fs.cache.device.blocks == fs.cache.disk
      ensures r.Some? ==> r.value.fs == fs && r.value.At() && r.value.ino == |old(fs.s).files|
      ensures r.Some? ==> |fs.s.files| == |old(fs.s).files| + 1
      ensures r.Some? ==> fs.s.files[|old(fs.s).files|].rec.kind == FileKind
      ensures r.Some? ==> SameKinds(old(fs.s), fs.s.(files := fs.s.files[..|old(fs.s).files|]))
    {
      hide BlockCacheManager.Valid, FsInv, FileOk, DirOk, Entries, Lookup, EncodeDirent, Needed, State.Used;
      var found := LookUp(name);
      if found.Some? {
        return None;
      }
      var k := NewInode(FileKind);
      UsedWhenOpen(old(fs.s), fs.s);
      Append(Dirent(name, k));
      assert ContentsOf(fs.s) == Linked(old(ContentsOf(fs.s)) + [[]], ino, Dirent(name, k));
      fs.cache.SyncAll();
      var pos := fs.DiskInodePos(k);
      var created := new Inode(pos.0, pos.1, fs, k);
      r := Some(created);
    }
  }

  lemma InodeBlockOnDevice(g: Geometry, d: seq<Block>, s: State, k: nat)
    requires FsInv(g, d, s) && k < |s.files|
    ensures g.Ok() && |d| == g.total
    ensures g.InodeAreaStart() <= InodePos(g, k).0 < g.DataBitmapStart() <= |d|
  {
  }

  // One more block joins the reserved ones.
  lemma ReserveOne(g: Geometry, d: seq<Block>, d': seq<Block>, s: State, s': State, v: seq<nat>, b: nat)
    requires Reserved(g, d, s, v) && FsInv(g, d', s')
    requires b !in s.Used() && s' == s.(loose := s.loose + {b})
    requires SameFrom(d, d', g.DataAreaStart(), g.total)
    requires b < |d'| && d'[b] == ZERO_BLOCK
    ensures Reserved(g, d', s', v + [b])
    ensures s'.loose == SetOf(v + [b]) && |s'.Used()| == |s.Used()| + 1
  {
    hide FilesOk, Owned, Table, InodeBits, DataBits, FreeIsZero, DecodeSuper;
    assert SetOf(v + [b]) == SetOf(v) + {b};
    assert s'.Used() == s.Used() + {b};
    assert forall p :: 0 <= p < |v| ==> v[p] in SetOf(v);
    assert forall p :: 0 <= p < |v| ==> v[p] in s.Used();
  }

  // Each file is intact, and its blocks lie in the data area.
  lemma FileOf(g: Geometry, d: seq<Block>, s: State, k: nat)
    requires FsInv(g, d, s) && k < |s.files|
    ensures FileOk(d, s.files[k])
    ensures s.files[k].rec.size == |s.files[k].content| <= MAX_SIZE
    ensures |s.files[k].ids| == TotalBlocks(|s.files[k].content|)
    ensures forall p :: 0 <= p < |s.files[k].ids| ==> g.DataAreaStart() <= s.files[k].ids[p] < |d|
    ensures forall p :: 0 <= p < |s.files[k].ids| ==> s.files[k].ids[p] in s.owner
  {
    hide Table, InodeBits, DataBits, FreeIsZero, DecodeSuper;
    assert FileOk(d, s.files[k]);
    hide FileOk;
    forall p | 0 <= p < |s.files[k].ids| ensures s.files[k].ids[p] in s.Used() {
      assert s.files[k].ids[p] in s.owner;
    }
  }

  // How many blocks growth from c to n bytes takes.
  function Needed(c: nat, n: nat): (m: nat)
    ensures c <= n ==> TotalBlocks(c) + m == TotalBlocks(n)
    ensures n <= c ==> m == 0
  {
    if n <= c then 0
    else
      FlatCountMonotone(DataBlocks(c), DataBlocks(n));
      TotalBlocks(n) - TotalBlocks(c)
  }

  // Where the entry after size bytes of entries goes.
  lemma NextEntry(size: nat)
    requires size % DIRENT_SZ == 0
    ensures size / DIRENT_SZ * DIRENT_SZ == size && (size / DIRENT_SZ + 1) * DIRENT_SZ == size + DIRENT_SZ
    ensures size % BLOCK_SZ != 0 ==> DataBlocks(size) == DataBlocks(size + DIRENT_SZ)
    ensures size % BLOCK_SZ + DIRENT_SZ <= BLOCK_SZ && BlockStart(size) < size + DIRENT_SZ
  {
    hide DataBlocks;
    var n, q, o := size / DIRENT_SZ, size / BLOCK_SZ, size % BLOCK_SZ;
    var r := n - 16 * q;
    assert o == DIRENT_SZ * r;
    if o != 0 {
      LastBlock(q, o);
      LastBlock(q, o + DIRENT_SZ);
    }
  }

  lemma LastBlock(q: nat, o: nat)
    requires 0 < o <= BLOCK_SZ
    ensures DataBlocks(BLOCK_SZ * q + o) == q + 1
  {
    hide DataBlocks;
  }

  lemma SameBlocksNeedNone(c: nat, n: nat)
    ensures DataBlocks(c) == DataBlocks(n) ==> Needed(c, n) == 0
  {
  }

  lemma ClearReady(d: seq<Block>, f: File)
    requires FileOk(d, f)
    ensures f.rec.WellFormed() && Indexed(f.rec, d, f.ids) && Distinct(f.ids)
    ensures f.rec.size <= MAX_SIZE && |f.ids| == TotalBlocks(f.rec.size)
  {
  }

  lemma LooseGone(g: Geometry, d: seq<Block>, s: State, s': State, v: seq<nat>)
    requires FsInv(g, d, s)
    requires s.loose == SetOf(v) && s' == s.(loose := {})
    ensures s'.Used() == s.Used() - SetOf(v)
  {
  }

  lemma UsedWhenOpen(s: State, s': State)
    requires s'.owner == s.owner && s'.loose == s.loose
    ensures s'.Used() == s.Used()
  {
  }

  lemma OverwrittenIsWritten(f: File, c: seq<byte>, offset: nat, buf: seq<byte>)
    requires f.content == Extended(c, offset + |buf|)
    ensures Overwritten(f, offset, buf).content == Written(c, offset, buf)
  {
  }

  lemma AppendIsWrite(c: seq<byte>, b: seq<byte>)
    ensures Splice(Extended(c, |c| + |b|), |c|, b) == c + b
  {
  }

  // ----- reading a directory through its inode

  // A locked file f behind the record inode.
  ghost predicate Locked(inode: DiskInode, cache: BlockCacheManager, f: File)
    reads inode, cache, cache.Repr
  {
    && cache.Calm() && inode !in cache.Repr
    && f.rec == inode.Rec() && FileOk(cache.disk, f) && inode.size == |f.content|
    && Unheld(cache, f.ids)
  }

  /** Reads entry i into a DirEntry buffer. */
  method ReadDirent(i: nat, inode: DiskInode, cache: BlockCacheManager, ghost f: File) returns (e: Dirent)
    requires Locked(inode, cache, f)
    requires i < |f.content| / DIRENT_SZ
    modifies cache.Repr
    ensures fresh(cache.Repr - old(cache.Repr))
    ensures Locked(inode, cache, f) && cache.disk == old(cache.disk) && cache.held == old(cache.held)
    ensures old(cache.device.blocks) == cache.disk ==> cache.device.blocks == cache.disk
    ensures e == Entries(f.content)[i]
  {
    hide BlockCacheManager.Valid, FileOk, DecodeDirent;
    var buf := new byte[DIRENT_SZ](_ => 0);
    var n := inode.ReadAt(DIRENT_SZ * i, buf, cache, f);
    assert n == DIRENT_SZ && buf[..] == RawEntry(f.content, i);
    e := DecodeDirent(buf[..]);
  }

  /** find_inode_id. */
  method FindInodeId(name: Name, inode: DiskInode, cache: BlockCacheManager, ghost f: File) returns (r: Option<nat>)
    requires Locked(inode, cache, f)
    requires f.rec.kind == DirectoryKind && DirOk(f.content)
    modifies cache.Repr
    ensures fresh(cache.Repr - old(cache.Repr))
    ensures Locked(inode, cache, f) && cache.disk == old(cache.disk) && cache.held == old(cache.held)
    ensures old(cache.device.blocks) == cache.disk ==> cache.device.blocks == cache.disk
    ensures r == Lookup(Entries(f.content), name)
  {
    hide Locked, DirOk;
    ghost var es := Entries(f.content);
    var count := LockedSize(inode, cache, f) / DIRENT_SZ;
    var i := 0;
    while i < count
      invariant 0 <= i <= count == |es|
      invariant fresh(cache.Repr - old(cache.Repr))
      invariant Locked(inode, cache, f) && cache.disk == old(cache.disk) && cache.held == old(cache.held)
      invariant old(cache.device.blocks) == cache.disk ==> cache.device.blocks == cache.disk
      invariant FindFrom(es, name, 0) == FindFrom(es, name, i)
    {
      var e := ReadDirent(i, inode, cache, f);
      if e.name == name {
        return Some(e.ino);
      }
      i := i + 1;
    }
    r := None;
  }

  function LockedSize(inode: DiskInode, ghost cache: BlockCacheManager, ghost f: File): (n: nat)
    reads inode, cache, cache.Repr
    requires Locked(inode, cache, f)
    ensures n == |f.content|
  {
    inode.size
  }

  /** The closure of get_nlink: each entry is read, and its name is looked up again. */
  method CountLinks(block: nat, offset: nat, ghost k: nat, inode: DiskInode, fs: EasyFileSystem, ghost f: File)
    returns (n: nat)
    requires fs.Wired() && Locked(inode, fs.cache, f)
    requires f.rec.kind == DirectoryKind && DirOk(f.content)
    requires InodePos(fs.g, k) == (block, offset)
    modifies fs.cache.Repr
    ensures fresh(fs.cache.Repr - old(fs.cache.Repr))
    ensures Locked(inode, fs.cache, f) && fs.cache.disk == old(fs.cache.disk) && fs.cache.held == old(fs.cache.held)
    ensures old(fs.cache.device.blocks) == fs.cache.disk ==> fs.cache.device.blocks == fs.cache.disk
    ensures n == Nlink(Entries(f.content), k)
  {
    hide Locked, DirOk, Lookup;
    var cache := fs.cache;
    ghost var es := Entries(f.content);
    var count := LockedSize(inode, cache, f) / DIRENT_SZ;
    n := 0;
    var i := 0;
    while i < count
      invariant 0 <= i <= count == |es|
      invariant fresh(cache.Repr - old(cache.Repr))
      invariant Locked(inode, cache, f) && cache.disk == old(cache.disk) && cache.held == old(cache.held)
      invariant old(cache.device.blocks) == cache.disk ==> cache.device.blocks == cache.disk
      invariant n == Links(es, k, i)
    {
      var e := ReadDirent(i, inode, cache, f);
      var id := FindInodeId(e.name, inode, cache, f);
      match id {
        case None =>
        case Some(j) =>
          InodeNumberInverts(fs.g, j);
          InodeNumberInverts(fs.g, k);
          if fs.DiskInodePos(j) == (block, offset) {
            n := n + 1;
          }
      }
      i := i + 1;
    }
  }

  ghost predicate SameKinds(s: State, s': State) {
    && |s'.files| == |s.files|
    && forall k :: 0 <= k < |s.files| ==> s'.files[k].rec.kind == s.files[k].rec.kind
  }

  lemma LookupListed(es: seq<Dirent>, name: Name)
    ensures Lookup(es, name).Some? ==> exists e :: e in es && e.ino == Lookup(es, name).value
  {
  }

  lemma EmptyDirOk()
    ensures DirOk([])
  {
  }

  lemma BlankIsZeros()
    ensures EncodeDirent(BLANK) == Zeros(DIRENT_SZ)
  {
    assert LeBytes(0, 2) == Zeros(2);
  }

  /** The search loop of unlink, as an index. */
  method FindIndex(name: Name, inode: DiskInode, cache: BlockCacheManager, ghost f: File) returns (i: nat)
    requires Locked(inode, cache, f)
    requires DirOk(f.content)
    modifies cache.Repr
    ensures fresh(cache.Repr - old(cache.Repr))
    ensures Locked(inode, cache, f) && cache.disk == old(cache.disk) && cache.held == old(cache.held)
    ensures i == FindFrom(Entries(f.content), name, 0)
  {
    hide Locked, DirOk;
    ghost var es := Entries(f.content);
    var count := LockedSize(inode, cache, f) / DIRENT_SZ;
    i := 0;
    while i < count
      invariant 0 <= i <= count == |es|
      invariant fresh(cache.Repr - old(cache.Repr))
      invariant Locked(inode, cache, f) && cache.disk == old(cache.disk) && cache.held == old(cache.held)
      invariant FindFrom(es, name, 0) == FindFrom(es, name, i)
    {
      var e := ReadDirent(i, inode, cache, f);
      if e.name == name {
        return;
      }
      i := i + 1;
    }
  }
}
