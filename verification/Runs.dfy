/** Whole runs of the file system: every sequence of operations refines byte sequences and keeps ownership. */
module FsRuns {
  import opened Basics
  import opened Bytes
  import opened BlockCaches
  import opened Bitmaps
  import opened Layout
  import opened Files
  import opened InodeTable
  import opened Geometries
  import opened FsState
  import opened EasyFs
  import opened Directories
  import opened FsSpec
  import opened Vfs

  // ----- how many blocks a file system uses

  ghost function TotalBelow(cs: Contents, n: nat): nat
    requires n <= |cs|
  {
    if n == 0 then 0 else TotalBelow(cs, n - 1) + TotalBlocks(|cs[n - 1]|)
  }

  ghost function Total(cs: Contents): nat {
    TotalBelow(cs, |cs|)
  }

  lemma {:induction false} TotalOfUpdate(cs: Contents, k: nat, c: seq<byte>, n: nat)
    requires k < |cs| && n <= |cs|
    ensures TotalBelow(cs[k := c], n) ==
            TotalBelow(cs, n) + if k < n then TotalBlocks(|c|) - TotalBlocks(|cs[k]|) else 0
  {
    hide TotalBlocks;
    if n > 0 { TotalOfUpdate(cs, k, c, n - 1); }
  }

  lemma {:induction false} TotalOfPrefix(cs: Contents, c: seq<byte>, n: nat)
    requires n <= |cs|
    ensures TotalBelow(cs + [c], n) == TotalBelow(cs, n)
  {
    hide TotalBlocks;
    if n > 0 { TotalOfPrefix(cs, c, n - 1); }
  }

  // The blocks recorded under inodes below n.
  ghost function OwnedBelow(s: State, n: nat): set<nat> {
    set b | b in s.owner && s.owner[b] < n
  }

  lemma {:induction false} OwnedBelowSize(g: Geometry, d: seq<Block>, s: State, n: nat)
    requires FsInv(g, d, s) && n <= |s.files|
    ensures |OwnedBelow(s, n)| == TotalBelow(ContentsOf(s), n)
  {
    hide TotalBlocks, FsInv;
    if n == 0 {
      assert OwnedBelow(s, 0) == {};
    } else {
      OwnedBelowSize(g, d, s, n - 1);
      OwnedByOne(g, d, s, n - 1);
      hide OwnedBelow, SetOf;
    }
  }

  lemma FileSize(g: Geometry, d: seq<Block>, s: State, k: nat)
    requires FsInv(g, d, s) && k < |s.files|
    ensures Owned(s.files, s.owner)
    ensures Distinct(s.files[k].ids) && |s.files[k].ids| == TotalBlocks(|s.files[k].content|)
  {
    hide TotalBlocks, FileOk, Table, InodeBits, DataBits, FreeIsZero, FilesOk, Owned;
    FileOf(g, d, s, k);
    ClearReady(d, s.files[k]);
  }

  lemma OwnedByOne(g: Geometry, d: seq<Block>, s: State, k: nat)
    requires FsInv(g, d, s) && k < |s.files|
    ensures |OwnedBelow(s, k + 1)| == |OwnedBelow(s, k)| + TotalBlocks(|s.files[k].content|)
  {
    hide TotalBlocks, FsInv, Owned, OwnedBelow, SetOf, Distinct;
    var f := s.files[k];
    FileSize(g, d, s, k);
    OwnedBySplit(s, k);
    SetOfSize(f.ids, |f.ids|);
    assert f.ids[..|f.ids|] == f.ids;
  }

  lemma OwnedBySplit(s: State, k: nat)
    requires Owned(s.files, s.owner) && k < |s.files|
    ensures OwnedBelow(s, k + 1) == OwnedBelow(s, k) + SetOf(s.files[k].ids)
    ensures OwnedBelow(s, k) !! SetOf(s.files[k].ids)
  {
    forall b ensures b in SetOf(s.files[k].ids) <==> b in s.owner && s.owner[b] == k {
      if b in s.files[k].ids {
        var p :| 0 <= p < |s.files[k].ids| && s.files[k].ids[p] == b;
        assert s.files[k].ids[p] in s.owner;
      }
    }
  }

  lemma {:induction false} SetOfSize(ids: seq<nat>, n: nat)
    requires Distinct(ids) && n <= |ids|
    ensures |SetOf(ids[..n])| == n
  {
    if n == 0 {
      assert SetOf(ids[..0]) == {};
    } else {
      SetOfSize(ids, n - 1);
      assert ids[..n] == ids[..n - 1] + [ids[n - 1]];
      assert SetOf(ids[..n]) == SetOf(ids[..n - 1]) + {ids[n - 1]};
    }
  }

  // Nothing leaks: the blocks in use are exactly as many as the file sizes call for.
  lemma UsedIsTotal(g: Geometry, d: seq<Block>, s: State)
    requires FsInv(g, d, s) && s.loose == {}
    ensures |s.Used()| == Total(ContentsOf(s))
  {
    OwnedBelowSize(g, d, s, |s.files|);
    assert s.Used() == OwnedBelow(s, |s.files|);
  }

  // ----- ownership, read off the disk alone

  // ids[k] is the block list of inode k on the disk d; the lists share no block, hold no block
  // twice, and together are exactly the blocks whose bit is set in the data bitmap.
  ghost predicate Partition(g: Geometry, d: seq<Block>, ids: seq<seq<nat>>)
    requires g.Ok() && |d| == g.total && |ids| <= g.InodeCount()
  {
    && (forall k :: 0 <= k < g.InodeCount() ==> (Bit(d, 1, k) <==> k < |ids|))
    && (forall k :: 0 <= k < |ids| ==>
          Indexed(InodeAt(g, d, k), d, ids[k]) && |ids[k]| == TotalBlocks(InodeAt(g, d, k).size))
    && (forall k :: 0 <= k < |ids| ==> Distinct(ids[k]))
    && (forall k, j :: 0 <= k < j < |ids| ==> SetOf(ids[k]) !! SetOf(ids[j]))
    && (forall j :: 0 <= j < g.dataBitmapBlocks * BLOCK_BITS ==>
          (Bit(d, g.DataBitmapStart(), j) <==> exists k :: 0 <= k < |ids| && g.DataAreaStart() + j in ids[k]))
  }

  ghost function IdLists(s: State): (ids: seq<seq<nat>>)
    ensures |ids| == |s.files|
  {
    seq(|s.files|, k requires 0 <= k < |s.files| => s.files[k].ids)
  }

  lemma OwnershipPartition(g: Geometry, d: seq<Block>, s: State)
    requires FsInv(g, d, s) && s.loose == {} && s.open == -1
    ensures Partition(g, d, IdLists(s))
  {
    hide Bit, InodeAt, FreeIsZero, FileOk, FilesOk, TotalBlocks, Indexed, Distinct;
    var ids := IdLists(s);
    forall k | 0 <= k < |ids|
      ensures Indexed(InodeAt(g, d, k), d, ids[k]) && |ids[k]| == TotalBlocks(InodeAt(g, d, k).size)
      ensures Distinct(ids[k])
    {
      FileOf(g, d, s, k);
      ClearReady(d, s.files[k]);
      assert InodeAt(g, d, k) == s.files[k].rec;
    }
    forall k, j | 0 <= k < j < |ids| ensures SetOf(ids[k]) !! SetOf(ids[j]) {
      OwnedBySplit(s, k);
      OwnedBySplit(s, j);
      assert SetOf(ids[k]) <= OwnedBelow(s, j);
    }
    forall j | 0 <= j < g.dataBitmapBlocks * BLOCK_BITS
      ensures Bit(d, g.DataBitmapStart(), j) <==> exists k :: 0 <= k < |ids| && g.DataAreaStart() + j in ids[k]
    {
      BitIsOwned(g, d, s, j);
    }
  }

  lemma BitIsOwned(g: Geometry, d: seq<Block>, s: State, j: nat)
    requires FsInv(g, d, s) && s.loose == {}
    requires j < g.dataBitmapBlocks * BLOCK_BITS
    ensures Bit(d, g.DataBitmapStart(), j) <==> exists k :: 0 <= k < |s.files| && g.DataAreaStart() + j in IdLists(s)[k]
  {
    hide Bit, Table, FreeIsZero, FilesOk, InodeBits;
    var b := g.DataAreaStart() + j;
    assert Bit(d, g.DataBitmapStart(), j) <==> b in s.Used();
    if b in s.owner {
      assert b in IdLists(s)[s.owner[b]];
    }
    forall k | 0 <= k < |s.files| && b in IdLists(s)[k] ensures b in s.owner {
      var p :| 0 <= p < |s.files[k].ids| && s.files[k].ids[p] == b;
      assert s.files[k].ids[p] in s.owner;
    }
  }

  // ----- runs

  // The device has room for these files.
  ghost predicate Room(g: Geometry, cs: Contents) {
    && |cs| <= g.InodeCount()
    && Total(cs) <= g.dataAreaBlocks
    && forall k :: 0 <= k < |cs| ==> |cs[k]| <= MAX_SIZE
  }

  ghost predicate Enabled(g: Geometry, cs: Contents, op: Op)
    requires SpecInv(cs)
  {
    Callable(cs, op) && Room(g, Step(cs, op))
  }

  ghost predicate EnabledRun(g: Geometry, cs: Contents, ops: seq<Op>)
    requires SpecInv(cs)
    decreases |ops|
  {
    ops != [] ==> Enabled(g, cs, ops[0]) && EnabledRun(g, Step(cs, ops[0]), ops[1..])
  }

  // The byte sequences after a run.
  ghost function RunOf(g: Geometry, cs: Contents, ops: seq<Op>): Contents
    requires SpecInv(cs) && EnabledRun(g, cs, ops)
    decreases |ops|
  {
    if ops == [] then cs else RunOf(g, Step(cs, ops[0]), ops[1..])
  }

  // What a run answers, operation by operation.
  ghost function Answers(g: Geometry, cs: Contents, ops: seq<Op>): seq<Answer>
    requires SpecInv(cs) && EnabledRun(g, cs, ops)
    decreases |ops|
  {
    if ops == [] then [] else [AnswerOf(cs, ops[0])] + Answers(g, Step(cs, ops[0]), ops[1..])
  }

  // ----- what has reached the device

  // The operations that end with a flush of the cache: all changes but link.
  ghost predicate Flushes(cs: Contents, op: Op)
    requires 0 < |cs|
  {
    match op
    case Create(name) => Lookup(Entries(cs[0]), name).None?
    case Write(_, _, _) => true
    case Clear(_) => true
    case Unlink(_) => true
    case _ => false
  }

  // A read that does not hold the block of the root's inode, so that a change of it may be written back.
  ghost predicate Elsewhere(op: Op) {
    op.Read? && op.k >= INODES_PER_BLOCK
  }

  // Whether a run is sure to leave the device current, given whether it was before.
  ghost predicate CurrentAfter(g: Geometry, cs: Contents, ops: seq<Op>, current: bool)
    requires SpecInv(cs) && EnabledRun(g, cs, ops)
    decreases |ops|
  {
    if ops == [] then current
    else CurrentAfter(g, Step(cs, ops[0]), ops[1..], Flushes(cs, ops[0]) || (current && !ops[0].Link?))
  }

  // The byte sequences before operation j.
  ghost function BeforeOp(g: Geometry, cs: Contents, ops: seq<Op>, j: nat): (r: Contents)
    requires SpecInv(cs) && EnabledRun(g, cs, ops) && j <= |ops|
    ensures SpecInv(r)
    decreases |ops|
  {
    if j == 0 then cs else BeforeOp(g, Step(cs, ops[0]), ops[1..], j - 1)
  }

  // Operation j of the run flushes.
  ghost predicate FlushesAt(g: Geometry, cs: Contents, ops: seq<Op>, j: nat)
    requires SpecInv(cs) && EnabledRun(g, cs, ops)
  {
    j < |ops| && Flushes(BeforeOp(g, cs, ops, j), ops[j])
  }

  // Every link is followed by a flush.
  ghost predicate LinksFlushed(g: Geometry, cs: Contents, ops: seq<Op>)
    requires SpecInv(cs) && EnabledRun(g, cs, ops)
  {
    forall i :: 0 <= i < |ops| && ops[i].Link? ==> exists j :: i < j && FlushesAt(g, cs, ops, j)
  }

  /** It is exactly when each link is followed by a flush and, if the device was not current, some flush is made. */
  lemma {:induction false} CurrentAfterMeans(g: Geometry, cs: Contents, ops: seq<Op>, current: bool)
    requires SpecInv(cs) && EnabledRun(g, cs, ops)
    ensures CurrentAfter(g, cs, ops, current) <==>
            LinksFlushed(g, cs, ops) && (current || exists j: nat :: FlushesAt(g, cs, ops, j))
    decreases |ops|
  {
    hide Step, DirOk, Listed, Flushes;
    if ops != [] {
      var cs', rest := Step(cs, ops[0]), ops[1..];
      var now := Flushes(cs, ops[0]) || (current && !ops[0].Link?);
      CurrentAfterMeans(g, cs', rest, now);
      forall j: nat | 0 < j ensures FlushesAt(g, cs, ops, j) <==> FlushesAt(g, cs', rest, j - 1) {
        assert j < |ops| ==> rest[j - 1] == ops[j];
      }
      assert FlushesAt(g, cs, ops, 0) <==> Flushes(cs, ops[0]);
      LinksOfRest(g, cs, ops);
      if exists j: nat :: FlushesAt(g, cs', rest, j) {
        var j: nat :| FlushesAt(g, cs', rest, j);
        assert FlushesAt(g, cs, ops, j + 1);
      }
      if exists j: nat :: FlushesAt(g, cs, ops, j) {
        var j: nat :| FlushesAt(g, cs, ops, j);
        assert j > 0 ==> FlushesAt(g, cs', rest, j - 1);
      }
      LinkDoesNotFlush(cs, ops[0]);
    }
  }

  // What makes a device current that is not, leaves current one that is.
  lemma {:induction false} CurrentMonotone(g: Geometry, cs: Contents, ops: seq<Op>, current: bool)
    requires SpecInv(cs) && EnabledRun(g, cs, ops) && CurrentAfter(g, cs, ops, false)
    ensures CurrentAfter(g, cs, ops, current)
    decreases |ops|
  {
    hide Step, DirOk, Listed, Flushes;
    if ops != [] && !Flushes(cs, ops[0]) {
      CurrentMonotone(g, Step(cs, ops[0]), ops[1..], current && !ops[0].Link?);
    }
  }

  lemma LinkDoesNotFlush(cs: Contents, op: Op)
    requires 0 < |cs|
    ensures op.Link? ==> !Flushes(cs, op)
  {
  }

  lemma LinksOfRest(g: Geometry, cs: Contents, ops: seq<Op>)
    requires SpecInv(cs) && EnabledRun(g, cs, ops) && ops != []
    ensures var cs', rest := Step(cs, ops[0]), ops[1..];
            LinksFlushed(g, cs, ops) <==>
              LinksFlushed(g, cs', rest) && (ops[0].Link? ==> exists j: nat :: FlushesAt(g, cs', rest, j))
  {
    hide Step, SpecInv, Flushes;
    var cs', rest := Step(cs, ops[0]), ops[1..];
    forall j: nat | 0 < j ensures FlushesAt(g, cs, ops, j) <==> FlushesAt(g, cs', rest, j - 1) {
      assert j < |ops| ==> rest[j - 1] == ops[j];
    }
    if LinksFlushed(g, cs, ops) {
      forall i | 0 <= i < |rest| && rest[i].Link? ensures exists j :: i < j && FlushesAt(g, cs', rest, j) {
        assert ops[i + 1].Link?;
        var j :| i + 1 < j && FlushesAt(g, cs, ops, j);
        assert FlushesAt(g, cs', rest, j - 1);
      }
      if ops[0].Link? {
        var j :| 0 < j && FlushesAt(g, cs, ops, j);
        assert FlushesAt(g, cs', rest, j - 1);
      }
    }
    if LinksFlushed(g, cs', rest) && (ops[0].Link? ==> exists j: nat :: FlushesAt(g, cs', rest, j)) {
      forall i | 0 <= i < |ops| && ops[i].Link? ensures exists j :: i < j && FlushesAt(g, cs, ops, j) {
        if i == 0 {
          var j: nat :| FlushesAt(g, cs', rest, j);
          assert FlushesAt(g, cs, ops, j + 1);
        } else {
          assert rest[i - 1].Link?;
          var j :| i - 1 < j && FlushesAt(g, cs', rest, j);
          assert FlushesAt(g, cs, ops, j + 1);
        }
      }
    }
  }

  // The root directory between operations, with a well-formed listing.
  ghost predicate AtRest(root: Inode)
    reads root.fs, root.fs.cache, root.fs.cache.Repr
  {
    root.Ready() && root.ino == 0 && SpecInv(ContentsOf(root.fs.s))
  }

  // The device holds what the cache stands for.
  ghost predicate Current(root: Inode)
    reads root.fs, root.fs.cache, root.fs.cache.Repr
    requires AtRest(root)
  {
    root.fs.cache.device.blocks == root.fs.cache.disk
  }

  // The root directory's record on d.
  ghost function RootSize(root: Inode, d: seq<Block>): nat
    requires root.blockId < |d|
  {
    DecodeInode(d[root.blockId], 0).size
  }

  // The directory on the device is shorter than the one in use: whoever reads the device misses entries.
  ghost predicate Behind(root: Inode)
    reads root.fs, root.fs.cache, root.fs.cache.Repr
    requires AtRest(root)
  {
    var cache := root.fs.cache;
    && root.blockId < |cache.device.blocks| && root.blockId < |cache.disk|
    && RootSize(root, cache.device.blocks) < RootSize(root, cache.disk)
  }

  lemma BehindIsNotCurrent(root: Inode)
    requires AtRest(root) && Behind(root)
    ensures !Current(root)
  {
  }

  // The record in use says how long the directory is.
  lemma RootRecord(root: Inode)
    requires AtRest(root)
    ensures root.blockId < |root.fs.cache.device.blocks| && root.blockId < |root.fs.cache.disk|
    ensures RootSize(root, root.fs.cache.disk) == |root.fs.s.files[0].content|
  {
    hide BlockCacheManager.Valid, DecodeInode, FileOk, SpecInv;
    root.fs.cache.SameSize();
    InodeBlockOnDevice(root.fs.g, root.fs.cache.disk, root.fs.s, 0);
    FileOf(root.fs.g, root.fs.cache.disk, root.fs.s, 0);
    assert InodeAt(root.fs.g, root.fs.cache.disk, 0) == root.fs.s.files[0].rec;
  }

  lemma RoomForWrite(g: Geometry, d: seq<Block>, s: State, k: nat, w: seq<byte>, n: nat)
    requires FsInv(g, d, s) && s.loose == {}
    requires k < |s.files| && |w| == if n <= |s.files[k].content| then |s.files[k].content| else n
    requires Total(ContentsOf(s)[k := w]) <= g.dataAreaBlocks
    ensures |s.Used()| + Needed(|s.files[k].content|, n) <= g.dataAreaBlocks
  {
    hide FsInv, TotalBlocks;
    UsedIsTotal(g, d, s);
    TotalOfUpdate(ContentsOf(s), k, w, |s.files|);
  }

  lemma RoomForCreate(g: Geometry, d: seq<Block>, s: State, e: Dirent)
    requires FsInv(g, d, s) && s.loose == {} && Storable(e)
    requires Total(Linked(ContentsOf(s) + [[]], 0, e)) <= g.dataAreaBlocks
    ensures |s.Used()| + Needed(|s.files[0].content|, |s.files[0].content| + DIRENT_SZ) <= g.dataAreaBlocks
  {
    hide FsInv, EncodeDirent;
    var cs := ContentsOf(s);
    assert 0 < |s.files| by { RootExists(g, d, s); }
    UsedIsTotal(g, d, s);
    TotalOfUpdate(cs + [[]], 0, cs[0] + EncodeDirent(e), |cs| + 1);
    TotalOfPrefix(cs, [], |cs|);
    assert (cs + [[]])[0] == cs[0];
  }

  lemma RootExists(g: Geometry, d: seq<Block>, s: State)
    requires FsInv(g, d, s)
    ensures 0 < |s.files| && s.files[0].rec.kind == DirectoryKind
  {
  }

  method InodeOf(root: Inode, k: nat) returns (i: Inode)
    requires root.fs.Wired()
    ensures i.fs == root.fs && i.ino == k && i.At()
  {
    var pos := root.fs.DiskInodePos(k);
    i := new Inode(pos.0, pos.1, root.fs, k);
  }

  /** One operation, through the code that implements it. */
  method Do(root: Inode, op: Op) returns (a: Answer)
    requires AtRest(root) && Enabled(root.fs.g, ContentsOf(root.fs.s), op)
    modifies root.fs, root.fs.cache.Repr
    ensures fresh(root.fs.cache.Repr - old(root.fs.cache.Repr))
    ensures AtRest(root)
    ensures ContentsOf(root.fs.s) == Step(old(ContentsOf(root.fs.s)), op)
    ensures a == AnswerOf(old(ContentsOf(root.fs.s)), op)
    ensures Flushes(old(ContentsOf(root.fs.s)), op) ==> Current(root)
    ensures !op.Link? && old(Current(root)) ==> Current(root)
    ensures !Flushes(old(ContentsOf(root.fs.s)), op) && !Elsewhere(op) && old(Behind(root)) ==> Behind(root)
    ensures op.Link? && (old(Current(root)) || old(Behind(root))) ==> Behind(root)
  {
    hide BlockCacheManager.Valid, FsInv, Entries, DirOk, Listed, EncodeDirent, Needed, Total;
    hide DecodeInode, Step, Lookup, AnswerOf;
    var fs := root.fs;
    RootExists(fs.g, fs.cache.disk, fs.s);
    RootRecord(root);
    ReadsChangeNothing(ContentsOf(fs.s), op);
    match op {
      case Write(k, offset, buf) => a := DoWrite(root, k, offset, buf);
      case Clear(k) => a := DoClear(root, k);
      case Create(name) => a := DoCreate(root, name);
      case Link(k, name) => a := DoLink(root, k, name);
      case Unlink(name) => a := DoUnlink(root, name);
      case Read(k, offset, len) => a := DoRead(root, k, offset, len);
      case Find(name) => a := DoFind(root, name);
      case GetNlink(k) => a := DoGetNlink(root, k);
    }
    assert ContentsOf(fs.s) == Step(old(ContentsOf(fs.s)), op);
    RootRecord(root);
  }

  method DoWrite(root: Inode, k: nat, offset: nat, buf: seq<byte>) returns (a: Answer)
    requires AtRest(root) && Enabled(root.fs.g, ContentsOf(root.fs.s), Write(k, offset, buf))
    modifies root.fs, root.fs.cache.Repr
    ensures fresh(root.fs.cache.Repr - old(root.fs.cache.Repr))
    ensures root.Ready() && root.fs.cache.device.blocks == root.fs.cache.disk
    ensures ContentsOf(root.fs.s) == Step(old(ContentsOf(root.fs.s)), Write(k, offset, buf))
    ensures a == AnswerOf(old(ContentsOf(root.fs.s)), Write(k, offset, buf))
  {
    hide BlockCacheManager.Valid, FsInv, Entries, DirOk, Listed, Needed, Total, Written;
    var fs := root.fs;
    var i := InodeOf(root, k);
    RoomForWrite(fs.g, fs.cache.disk, fs.s, k, Written(fs.s.files[k].content, offset, buf), offset + |buf|);
    var n := i.WriteAt(offset, buf);
    a := Number(n);
  }

  method DoClear(root: Inode, k: nat) returns (a: Answer)
    requires AtRest(root) && Enabled(root.fs.g, ContentsOf(root.fs.s), Clear(k))
    modifies root.fs, root.fs.cache.Repr
    ensures fresh(root.fs.cache.Repr - old(root.fs.cache.Repr))
    ensures root.Ready() && root.fs.cache.device.blocks == root.fs.cache.disk
    ensures ContentsOf(root.fs.s) == Step(old(ContentsOf(root.fs.s)), Clear(k))
    ensures a == AnswerOf(old(ContentsOf(root.fs.s)), Clear(k))
  {
    hide BlockCacheManager.Valid, FsInv, Entries, DirOk, Listed;
    var i := InodeOf(root, k);
    i.Clear();
    a := Done;
  }

  method DoCreate(root: Inode, name: Name) returns (a: Answer)
    requires AtRest(root) && Enabled(root.fs.g, ContentsOf(root.fs.s), Create(name))
    modifies root.fs, root.fs.cache.Repr
    ensures fresh(root.fs.cache.Repr - old(root.fs.cache.Repr))
    ensures root.Ready()
    ensures ContentsOf(root.fs.s) == Step(old(ContentsOf(root.fs.s)), Create(name))
    ensures a == AnswerOf(old(ContentsOf(root.fs.s)), Create(name))
    ensures Flushes(old(ContentsOf(root.fs.s)), Create(name)) ==> root.fs.cache.device.blocks == root.fs.cache.disk
    ensures !Flushes(old(ContentsOf(root.fs.s)), Create(name)) ==>
              && root.fs.cache.disk == old(root.fs.cache.disk)
              && SameAt(old(root.fs.cache.device.blocks), root.fs.cache.device.blocks, root.blockId)
              && (old(root.fs.cache.device.blocks) == old(root.fs.cache.disk) ==> root.fs.cache.device.blocks == root.fs.cache.disk)
  {
    hide BlockCacheManager.Valid, FsInv, Entries, DirOk, Listed, EncodeDirent, Needed, Total, Lookup;
    var fs := root.fs;
    RootExists(fs.g, fs.cache.disk, fs.s);
    if Lookup(root.Listing(), name).None? {
      ghost var e := Dirent(name, |fs.s.files|);
      assert Linked(ContentsOf(fs.s) + [[]], 0, e)[0] == fs.s.files[0].content + EncodeDirent(e);
      RoomForCreate(fs.g, fs.cache.disk, fs.s, e);
    }
    var r := root.Create(name);
    a := Node(if r.None? then None else Some(r.value.GetIno()));
  }

  method DoLink(root: Inode, k: nat, name: Name) returns (a: Answer)
    requires AtRest(root) && Enabled(root.fs.g, ContentsOf(root.fs.s), Link(k, name))
    modifies root.fs, root.fs.cache.Repr
    ensures fresh(root.fs.cache.Repr - old(root.fs.cache.Repr))
    ensures root.Ready()
    ensures ContentsOf(root.fs.s) == Step(old(ContentsOf(root.fs.s)), Link(k, name))
    ensures a == AnswerOf(old(ContentsOf(root.fs.s)), Link(k, name))
    ensures SameAt(old(root.fs.cache.device.blocks), root.fs.cache.device.blocks, root.blockId)
    ensures |root.fs.s.files[0].content| == |old(root.fs.s).files[0].content| + DIRENT_SZ
    ensures |old(root.fs.s).files[0].content| % BLOCK_SZ != 0 && old(Current(root)) ==>
              root.fs.cache.device.blocks == old(root.fs.cache.device.blocks)
  {
    hide BlockCacheManager.Valid, FsInv, Entries, DirOk, Listed, EncodeDirent, Needed, Total, Lookup;
    var fs := root.fs;
    RootExists(fs.g, fs.cache.disk, fs.s);
    ghost var c := fs.s.files[0].content;
    ghost var w := c + EncodeDirent(Dirent(name, k));
    assert Step(ContentsOf(fs.s), Link(k, name)) == ContentsOf(fs.s)[0 := w];
    assert |Step(ContentsOf(fs.s), Link(k, name))[0]| == |c| + DIRENT_SZ;
    RoomForWrite(fs.g, fs.cache.disk, fs.s, 0, w, |c| + DIRENT_SZ);
    var r := root.Link(k, name);
    a := Number(r);
    assert ContentsOf(fs.s) == old(ContentsOf(fs.s))[0 := w];
  }

  method DoUnlink(root: Inode, name: Name) returns (a: Answer)
    requires AtRest(root)
    modifies root.fs, root.fs.cache.Repr
    ensures fresh(root.fs.cache.Repr - old(root.fs.cache.Repr))
    ensures root.Ready() && root.fs.cache.device.blocks == root.fs.cache.disk
    ensures ContentsOf(root.fs.s) == Step(old(ContentsOf(root.fs.s)), Unlink(name))
    ensures a == AnswerOf(old(ContentsOf(root.fs.s)), Unlink(name))
  {
    hide BlockCacheManager.Valid, FsInv, Entries, DirOk, Unlinked;
    var fs := root.fs;
    RootExists(fs.g, fs.cache.disk, fs.s);
    forall e | e in root.Listing() ensures e.ino < |fs.s.files| {
      var i :| 0 <= i < |root.Listing()| && root.Listing()[i] == e;
    }
    var r := root.Unlink(name);
    a := Number(r);
  }

  lemma ReadsChangeNothing(cs: Contents, op: Op)
    requires SpecInv(cs) && Callable(cs, op)
    ensures op.Read? || op.Find? || op.GetNlink? ==> Step(cs, op) == cs
  {
  }

  // What a read does to the device: nothing if it is current, and nothing to the root's inode if its block is held.
  twostate predicate OnlyRead(root: Inode, held: bool)
    reads root.fs, root.fs.cache, root.fs.cache.Repr
  {
    && root.Ready() && root.fs.s == old(root.fs.s) && root.fs.cache.disk == old(root.fs.cache.disk)
    && (old(root.fs.cache.device.blocks) == root.fs.cache.disk ==> root.fs.cache.device.blocks == root.fs.cache.disk)
    && (held ==> SameAt(old(root.fs.cache.device.blocks), root.fs.cache.device.blocks, root.blockId))
  }

  method DoRead(root: Inode, k: nat, offset: nat, len: nat) returns (a: Answer)
    requires AtRest(root) && k < |root.fs.s.files|
    modifies root.fs.cache.Repr
    ensures fresh(root.fs.cache.Repr - old(root.fs.cache.Repr))
    ensures OnlyRead(root, k < INODES_PER_BLOCK)
    ensures a == AnswerOf(ContentsOf(root.fs.s), Op.Read(k, offset, len))
  {
    hide BlockCacheManager.Valid, FsInv, Entries, DirOk, Listed, ReadSlice;
    var i := InodeOf(root, k);
    var buf := new byte[len](_ => 0);
    var n := i.ReadAt(offset, buf);
    a := Data(buf[..n]);
  }

  method DoFind(root: Inode, name: Name) returns (a: Answer)
    requires AtRest(root)
    modifies root.fs.cache.Repr
    ensures fresh(root.fs.cache.Repr - old(root.fs.cache.Repr))
    ensures OnlyRead(root, true)
    ensures a == AnswerOf(ContentsOf(root.fs.s), Find(name))
  {
    hide BlockCacheManager.Valid, FsInv, Entries, DirOk, Listed, Lookup;
    RootExists(root.fs.g, root.fs.cache.disk, root.fs.s);
    var r := root.Find(name);
    a := Node(if r.None? then None else Some(r.value.GetIno()));
  }

  method DoGetNlink(root: Inode, k: nat) returns (a: Answer)
    requires AtRest(root) && k < |root.fs.s.files|
    modifies root.fs.cache.Repr
    ensures fresh(root.fs.cache.Repr - old(root.fs.cache.Repr))
    ensures OnlyRead(root, true)
    ensures a == AnswerOf(ContentsOf(root.fs.s), GetNlink(k))
  {
    hide BlockCacheManager.Valid, FsInv, Entries, DirOk, Listed, Nlink;
    RootExists(root.fs.g, root.fs.cache.disk, root.fs.s);
    var pos := root.fs.DiskInodePos(k);
    var n := root.GetNlink(pos.0, pos.1, k);
    a := Number(n);
  }

  // After the first operation of a run.
  lemma NowCurrent(root: Inode, ops: seq<Op>, cs: Contents, was: bool)
    requires AtRest(root) && SpecInv(cs) && EnabledRun(root.fs.g, cs, ops) && ops != []
    requires ContentsOf(root.fs.s) == Step(cs, ops[0])
    requires Flushes(cs, ops[0]) || (was && !ops[0].Link?) ==> Current(root)
    ensures CurrentAfter(root.fs.g, cs, ops, was) ==>
              CurrentAfter(root.fs.g, ContentsOf(root.fs.s), ops[1..], Current(root))
    ensures Behind(root) ==> !Current(root)
  {
    hide Step, DirOk, Listed, Flushes, BlockCacheManager.Valid, FsInv;
    if CurrentAfter(root.fs.g, cs, ops, was) && !(Flushes(cs, ops[0]) || (was && !ops[0].Link?)) {
      CurrentMonotone(root.fs.g, ContentsOf(root.fs.s), ops[1..], Current(root));
    }
    if Behind(root) { BehindIsNotCurrent(root); }
  }

  /**
   Every run of operations: the answers are those of the specification's run, and the disk holds its byte
   sequences. The device is current if every link is flushed; only if, as long as nothing is read elsewhere.
   */
  method Run(root: Inode, ops: seq<Op>) returns (answers: seq<Answer>)
    requires AtRest(root) && EnabledRun(root.fs.g, ContentsOf(root.fs.s), ops)
    modifies root.fs, root.fs.cache.Repr
    ensures fresh(root.fs.cache.Repr - old(root.fs.cache.Repr))
    ensures AtRest(root)
    ensures answers == Answers(root.fs.g, old(ContentsOf(root.fs.s)), ops)
    ensures ContentsOf(root.fs.s) == RunOf(root.fs.g, old(ContentsOf(root.fs.s)), ops)
    ensures FsInv(root.fs.g, root.fs.cache.disk, root.fs.s)
    ensures Partition(root.fs.g, root.fs.cache.disk, IdLists(root.fs.s))
    ensures root.fs.cache.peak <= NESTING
    ensures CurrentAfter(root.fs.g, old(ContentsOf(root.fs.s)), ops, old(Current(root))) ==> Current(root)
    ensures (old(Current(root)) || old(Behind(root))) && (forall op :: op in ops ==> !Elsewhere(op)) ==>
              (Behind(root) <==> !CurrentAfter(root.fs.g, old(ContentsOf(root.fs.s)), ops, old(Current(root))))
    decreases |ops|
  {
    hide BlockCacheManager.Valid, FsInv, SpecInv, Step, Partition;
    if ops != [] {
      ghost var cs, was := ContentsOf(root.fs.s), Current(root);
      var a := Do(root, ops[0]);
      NowCurrent(root, ops, cs, was);
      var rest := Run(root, ops[1..]);
      answers := [a] + rest;
    } else {
      answers := [];
      OwnershipPartition(root.fs.g, root.fs.cache.disk, root.fs.s);
    }
  }

  /** EasyFileSystem::open and root_inode on a device that holds the file system s. */
  method OpenDevice(device: BlockDevice, ghost g: Geometry, ghost s: State) returns (root: Inode)
    requires FsInv(g, device.blocks, s) && s.loose == {} && s.open == -1 && SpecInv(ContentsOf(s))
    modifies device
    ensures fresh(root) && fresh(root.fs) && root.fs.cache.device == device
    ensures AtRest(root) && root.fs.g == g && root.fs.s == s
  {
    hide FsInv, SpecInv;
    RootExists(g, device.blocks, s);
    var cache := new BlockCacheManager(device);
    var fs := new EasyFileSystem.Open(cache, g, s);
    var pos := fs.DiskInodePos(0);
    root := new Inode(pos.0, pos.1, fs, 0);
  }

  /** Once the cache is flushed, opening the device anew finds every file as it was. */
  method Remount(root: Inode) returns (again: Inode)
    requires AtRest(root) && root.fs.cache.device.blocks == root.fs.cache.disk
    modifies root.fs.cache.device
    ensures fresh(again) && fresh(again.fs) && again.fs.cache.device == root.fs.cache.device
    ensures AtRest(again) && again.fs.g == root.fs.g
    ensures ContentsOf(again.fs.s) == old(ContentsOf(root.fs.s))
  {
    hide FsInv, SpecInv;
    again := OpenDevice(root.fs.cache.device, root.fs.g, root.fs.s);
  }

  lemma SameFile(d: seq<Block>, f: File, f': File)
    requires FileOk(d, f) && FileOk(d, f') && f.rec == f'.rec
    ensures f == f'
  {
    hide Stores, Indexed;
    FileSizes(d, f);
    FileSizes(d, f');
    IndexedIsUnique(f.rec, d, f.ids, f'.ids);
    StoredContentIsUnique(d, f.ids, f.content, f'.content);
  }

  lemma FileSizes(d: seq<Block>, f: File)
    requires FileOk(d, f)
    ensures |f.ids| == TotalBlocks(|f.content|)
  {
    ClearReady(d, f);
  }

  lemma BitsCount(g: Geometry, d: seq<Block>, n: nat, n': nat)
    requires g.Ok() && |d| == g.total && n <= g.InodeCount() && n' <= g.InodeCount()
    requires InodeBits(g, d, n) && InodeBits(g, d, n')
    ensures n == n'
  {
    hide Bit;
    assert n < g.InodeCount() ==> (Bit(d, 1, n) <==> n < n');
    assert n' < g.InodeCount() ==> (Bit(d, 1, n') <==> n' < n);
  }

  /** A device holds at most one file system: nothing is left for open to choose. */
  lemma DeviceDetermines(g: Geometry, g': Geometry, d: seq<Block>, s: State, s': State)
    requires FsInv(g, d, s) && FsInv(g', d, s') && s.open == -1 && s'.open == -1
    ensures g == g' && s.files == s'.files
  {
    hide FileOk, Bit, DataBits, FreeIsZero, Owned, InDataArea;
    BitsCount(g, d, |s.files|, |s'.files|);
    forall k | 0 <= k < |s.files| ensures s.files[k] == s'.files[k] {
      assert InodeAt(g, d, k) == s.files[k].rec == s'.files[k].rec;
      SameFile(d, s.files[k], s'.files[k]);
    }
  }
}
