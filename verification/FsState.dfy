/**
 The file-system invariant over the bytes of the device, and how each kind of disk change
 keeps it. Everything here is a statement about values; the operations that make the
 changes are in EasyFs and Vfs.
 */
module FsState {
  import opened Basics
  import opened Bytes
  import opened Bitmaps
  import opened Layout
  import opened Files
  import opened InodeTable
  import opened Geometries

  // files[k] is inode k. owner maps each block of a file to its inode. loose blocks are
  // allocated and belong to no file, as happens inside an operation. open is the inode whose
  // record is being modified in memory, or -1.
  datatype State = State(files: seq<File>, owner: map<nat, nat>, loose: set<nat>, open: int)
  {
    ghost function Used(): set<nat> { owner.Keys + loose }
  }

  ghost predicate FilesOk(d: seq<Block>, files: seq<File>) {
    forall k :: 0 <= k < |files| ==> FileOk(d, files[k])
  }

  // Every block of every file is recorded under that file, and nothing else is recorded.
  ghost predicate Owned(files: seq<File>, owner: map<nat, nat>) {
    && (forall k, p :: 0 <= k < |files| && 0 <= p < |files[k].ids| ==>
          files[k].ids[p] in owner && owner[files[k].ids[p]] == k)
    && (forall b :: b in owner ==> owner[b] < |files| && b in files[owner[b]].ids)
  }

  function InodeAt(g: Geometry, d: seq<Block>, k: nat): InodeRec
    requires g.InodeAreaStart() + k / INODES_PER_BLOCK < |d|
  {
    DecodeInode(d[g.InodeAreaStart() + k / INODES_PER_BLOCK], k % INODES_PER_BLOCK)
  }

  ghost predicate Table(g: Geometry, d: seq<Block>, files: seq<File>, open: int)
    requires g.Ok() && |d| == g.total && |files| <= g.InodeCount()
  {
    forall k :: 0 <= k < |files| && k != open ==> InodeAt(g, d, k) == files[k].rec
  }

  ghost predicate InodeBits(g: Geometry, d: seq<Block>, n: nat)
    requires g.Ok() && |d| == g.total
  {
    forall k :: 0 <= k < g.InodeCount() ==> (Bit(d, 1, k) <==> k < n)
  }

  ghost predicate DataBits(g: Geometry, d: seq<Block>, used: set<nat>)
    requires g.Ok() && |d| == g.total
  {
    forall j :: 0 <= j < g.dataBitmapBlocks * BLOCK_BITS ==>
      (Bit(d, g.DataBitmapStart(), j) <==> g.DataAreaStart() + j in used)
  }

  ghost predicate InDataArea(g: Geometry, used: set<nat>) {
    forall b :: b in used ==> g.DataAreaStart() <= b < g.total
  }

  ghost predicate FreeIsZero(g: Geometry, d: seq<Block>, used: set<nat>)
    requires g.Ok() && |d| == g.total
  {
    forall b :: g.DataAreaStart() <= b < g.total && b !in used ==> d[b] == ZERO_BLOCK
  }

  ghost predicate FsInv(g: Geometry, d: seq<Block>, s: State) {
    && g.Ok() && |d| == g.total
    && 0 < |s.files| <= g.InodeCount()
    && DecodeSuper(d[0]) == Some(g)
    && FilesOk(d, s.files)
    && Owned(s.files, s.owner)
    && s.owner.Keys !! s.loose
    && Table(g, d, s.files, s.open)
    && InodeBits(g, d, |s.files|)
    && DataBits(g, d, s.Used())
    && InDataArea(g, s.Used())
    && FreeIsZero(g, d, s.Used())
    && s.files[0].rec.kind == DirectoryKind
  }

  // ----- framing: which part of the disk each clause looks at

  ghost predicate SameFrom(d: seq<Block>, d': seq<Block>, lo: nat, hi: nat) {
    |d'| == |d| && forall b :: lo <= b < hi <= |d| ==> d'[b] == d[b]
  }

  lemma FilesFrame(g: Geometry, d: seq<Block>, d': seq<Block>, s: State)
    requires g.Ok() && |d| == g.total
    requires FilesOk(d, s.files) && Owned(s.files, s.owner) && InDataArea(g, s.Used())
    requires SameFrom(d, d', g.DataAreaStart(), g.total)
    ensures FilesOk(d', s.files)
  {
    forall k | 0 <= k < |s.files| ensures FileOk(d', s.files[k]) {
      forall p | 0 <= p < |s.files[k].ids| ensures d'[s.files[k].ids[p]] == d[s.files[k].ids[p]] {
        assert s.files[k].ids[p] in s.Used();
      }
      FileFrame(d, d', s.files[k]);
    }
  }

  lemma TableFrame(g: Geometry, d: seq<Block>, d': seq<Block>, s: State)
    requires g.Ok() && |d| == g.total && |s.files| <= g.InodeCount()
    requires Table(g, d, s.files, s.open)
    requires SameFrom(d, d', g.InodeAreaStart(), g.DataBitmapStart())
    ensures Table(g, d', s.files, s.open)
  {
    forall k | 0 <= k < |s.files| && k != s.open ensures InodeAt(g, d', k) == s.files[k].rec {
      assert InodeAt(g, d, k) == s.files[k].rec;
    }
  }

  lemma InodeBitsFrame(g: Geometry, d: seq<Block>, d': seq<Block>, n: nat)
    requires g.Ok() && |d| == g.total && InodeBits(g, d, n)
    requires SameFrom(d, d', 1, g.InodeAreaStart())
    ensures InodeBits(g, d', n)
  {
    forall k | 0 <= k < g.InodeCount() ensures Bit(d', 1, k) <==> k < n {
      assert Bit(d, 1, k) <==> k < n;
    }
  }

  lemma DataBitsFrame(g: Geometry, d: seq<Block>, d': seq<Block>, used: set<nat>)
    requires g.Ok() && |d| == g.total && DataBits(g, d, used)
    requires SameFrom(d, d', g.DataBitmapStart(), g.DataAreaStart())
    ensures DataBits(g, d', used)
  {
    forall j | 0 <= j < g.dataBitmapBlocks * BLOCK_BITS
      ensures Bit(d', g.DataBitmapStart(), j) <==> g.DataAreaStart() + j in used
    {
      assert Bit(d, g.DataBitmapStart(), j) <==> g.DataAreaStart() + j in used;
    }
  }

  // ----- allocating and freeing one data block

  lemma AllocStep(g: Geometry, d: seq<Block>, d': seq<Block>, s: State, j: nat)
    requires FsInv(g, d, s)
    requires j < g.dataAreaBlocks && !Bit(d, g.DataBitmapStart(), j)
    requires FlippedOnly(d, d', g.DataBitmapStart(), g.dataBitmapBlocks, j)
    requires Bit(d', g.DataBitmapStart(), j)
    ensures g.DataAreaStart() + j !in s.Used()
    ensures FsInv(g, d', s.(loose := s.loose + {g.DataAreaStart() + j}))
    ensures d'[g.DataAreaStart() + j] == ZERO_BLOCK
  {
    hide FileOk, Bit, InodeAt, DecodeSuper;
    var b := g.DataAreaStart() + j;
    var s' := s.(loose := s.loose + {b});
    assert s'.Used() == s.Used() + {b};
    FilesFrame(g, d, d', s);
    TableFrame(g, d, d', s);
    InodeBitsFrame(g, d, d', |s.files|);
  }

  // Freeing a loose block: it is zeroed, then its bit is cleared.
  lemma DeallocStep(g: Geometry, d: seq<Block>, d': seq<Block>, s: State, b: nat)
    requires FsInv(g, d, s) && b in s.loose
    requires g.DataAreaStart() <= b && b - g.DataAreaStart() < g.dataBitmapBlocks * BLOCK_BITS
    requires FlippedOnly(d[b := ZERO_BLOCK], d', g.DataBitmapStart(), g.dataBitmapBlocks, b - g.DataAreaStart())
    requires !Bit(d', g.DataBitmapStart(), b - g.DataAreaStart())
    ensures FsInv(g, d', s.(loose := s.loose - {b}))
  {
    hide FileOk, Bit, InodeAt, DecodeSuper;
    var s' := s.(loose := s.loose - {b});
    assert s'.Used() == s.Used() - {b};
    var d1 := d[b := ZERO_BLOCK];
    ZeroLoose(g, d, s, b);
    FilesFrame(g, d1, d', s);
    TableFrame(g, d, d', s);
    InodeBitsFrame(g, d, d', |s.files|);
    DataBitsFrame(g, d, d1, s.Used());
  }

  lemma ZeroLoose(g: Geometry, d: seq<Block>, s: State, b: nat)
    requires FsInv(g, d, s) && b in s.loose
    ensures b < |d| && FilesOk(d[b := ZERO_BLOCK], s.files)
  {
    assert b in s.Used();
    forall k | 0 <= k < |s.files| ensures FileOk(d[b := ZERO_BLOCK], s.files[k]) {
      FileFrame(d, d[b := ZERO_BLOCK], s.files[k]);
    }
  }

  // ----- replacing the file under modification

  ghost function SetOf(ids: seq<nat>): set<nat> {
    set b | b in ids
  }

  // File k becomes f: blocks move between the file and the loose blocks, none appear or vanish.
  ghost function WithFile(s: State, k: nat, f: File): (s': State)
    requires k < |s.files|
    ensures s'.files == s.files[k := f] && s'.open == s.open
  {
    State(
      s.files[k := f],
      (s.owner - SetOf(s.files[k].ids)) + (map b | b in SetOf(f.ids) :: k),
      s.loose + SetOf(s.files[k].ids) - SetOf(f.ids),
      s.open)
  }

  lemma ReplaceStep(g: Geometry, d: seq<Block>, d': seq<Block>, s: State, f: File)
    requires FsInv(g, d, s) && 0 <= s.open < |s.files|
    requires FileOk(d', f) && f.rec.kind == s.files[s.open].rec.kind
    requires SetOf(f.ids) <= SetOf(s.files[s.open].ids) + s.loose
    requires SameOutside(d, d', f.ids)
    ensures FsInv(g, d', WithFile(s, s.open, f))
    ensures WithFile(s, s.open, f).Used() == s.Used()
  {
    hide FileOk, Bit, InodeAt, DecodeSuper;
    var k, s' := s.open, WithFile(s, s.open, f);
    ReplaceKeepsUsed(s, f);
    ReplaceKeepsOwned(s, f);
    ReplaceKeepsFiles(d, d', s, f);
    assert forall b :: b in f.ids ==> b in SetOf(f.ids);
    assert forall b :: 0 <= b < g.DataAreaStart() ==> d'[b] == d[b];
    TableOfReplaced(g, d, s, k, f);
    TableFrame(g, d, d', s');
    InodeBitsFrame(g, d, d', |s.files|);
    DataBitsFrame(g, d, d', s.Used());
  }

  lemma TableOfReplaced(g: Geometry, d: seq<Block>, s: State, k: nat, f: File)
    requires g.Ok() && |d| == g.total && |s.files| <= g.InodeCount()
    requires k < |s.files| && s.open == k
    requires Table(g, d, s.files, k)
    ensures Table(g, d, s.files[k := f], k)
  {
  }

  lemma ReplaceKeepsUsed(s: State, f: File)
    requires Owned(s.files, s.owner) && s.owner.Keys !! s.loose && 0 <= s.open < |s.files|
    requires SetOf(f.ids) <= SetOf(s.files[s.open].ids) + s.loose
    ensures WithFile(s, s.open, f).Used() == s.Used()
    ensures WithFile(s, s.open, f).owner.Keys !! WithFile(s, s.open, f).loose
  {
  }

  lemma ReplaceKeepsOwned(s: State, f: File)
    requires Owned(s.files, s.owner) && s.owner.Keys !! s.loose && 0 <= s.open < |s.files|
    requires SetOf(f.ids) <= SetOf(s.files[s.open].ids) + s.loose
    ensures Owned(WithFile(s, s.open, f).files, WithFile(s, s.open, f).owner)
  {
    var k, s' := s.open, WithFile(s, s.open, f);
    forall j, p | 0 <= j < |s'.files| && 0 <= p < |s'.files[j].ids|
      ensures s'.files[j].ids[p] in s'.owner && s'.owner[s'.files[j].ids[p]] == j
    {
      var b := s'.files[j].ids[p];
      if j == k {
        assert b in SetOf(f.ids);
      } else {
        assert b in s.owner && s.owner[b] == j;
        assert b !in SetOf(s.files[k].ids) && b !in s.loose;
      }
    }
  }

  lemma ReplaceKeepsFiles(d: seq<Block>, d': seq<Block>, s: State, f: File)
    requires Owned(s.files, s.owner) && s.owner.Keys !! s.loose && 0 <= s.open < |s.files|
    requires FilesOk(d, s.files) && FileOk(d', f)
    requires SetOf(f.ids) <= SetOf(s.files[s.open].ids) + s.loose
    requires SameOutside(d, d', f.ids)
    ensures FilesOk(d', s.files[s.open := f])
  {
    hide FileOk;
    forall j | 0 <= j < |s.files| && j != s.open ensures FileOk(d', s.files[j]) {
      assert FileOk(d, s.files[j]);
      forall p | 0 <= p < |s.files[j].ids|
        ensures s.files[j].ids[p] < |d| && d'[s.files[j].ids[p]] == d[s.files[j].ids[p]]
      {
        FileOnDevice(d, s.files[j], p);
        var b := s.files[j].ids[p];
        assert b in s.owner && s.owner[b] == j;
        assert b in f.ids ==> b in SetOf(f.ids);
      }
      FileFrame(d, d', s.files[j]);
    }
  }

  lemma FileOnDevice(d: seq<Block>, f: File, p: nat)
    requires FileOk(d, f) && p < |f.ids|
    ensures f.ids[p] < |d|
  {
  }

  // ----- opening an inode and writing it back

  lemma OpenStep(g: Geometry, d: seq<Block>, s: State, k: nat)
    requires FsInv(g, d, s) && s.open == -1 && k < |s.files|
    ensures FsInv(g, d, s.(open := k))
    ensures s.files[k].rec.WellFormed()
    ensures InodeAt(g, d, k) == s.files[k].rec
  {
    assert FileOk(d, s.files[k]);
  }

  function PutInode(g: Geometry, d: seq<Block>, k: nat, n: InodeRec): seq<Block>
    requires n.WellFormed() && g.InodeAreaStart() + k / INODES_PER_BLOCK < |d|
  {
    var at := g.InodeAreaStart() + k / INODES_PER_BLOCK;
    d[at := EncodeInode(d[at], k % INODES_PER_BLOCK, n)]
  }

  lemma InodeAtOfPutInode(g: Geometry, d: seq<Block>, k: nat, n: InodeRec, j: nat)
    requires n.WellFormed() && g.InodeAreaStart() + k / INODES_PER_BLOCK < |d|
    requires g.InodeAreaStart() + j / INODES_PER_BLOCK < |d|
    ensures InodeAt(g, PutInode(g, d, k, n), j) == if j == k then n else InodeAt(g, d, j)
  {
    hide DecodeInode, EncodeInode;
    var at := g.InodeAreaStart() + k / INODES_PER_BLOCK;
    if j / INODES_PER_BLOCK == k / INODES_PER_BLOCK {
      if j == k {
        DecodeOfEncode(d[at], k % INODES_PER_BLOCK, n);
      } else {
        DecodeOfOtherSlot(d[at], k % INODES_PER_BLOCK, n, j % INODES_PER_BLOCK);
      }
    }
  }

  lemma CloseStep(g: Geometry, d: seq<Block>, s: State)
    requires FsInv(g, d, s) && 0 <= s.open < |s.files|
    ensures s.files[s.open].rec.WellFormed()
    ensures g.InodeAreaStart() + s.open / INODES_PER_BLOCK < |d|
    ensures FsInv(g, PutInode(g, d, s.open, s.files[s.open].rec), s.(open := -1))
  {
    hide Bit, DecodeSuper, DecodeInode, EncodeInode;
    assert FileOk(d, s.files[s.open]);
    hide FileOk;
    var n := s.files[s.open].rec;
    var d' := PutInode(g, d, s.open, n);
    forall k | 0 <= k < |s.files| ensures InodeAt(g, d', k) == s.files[k].rec {
      InodeAtOfPutInode(g, d, s.open, n, k);
      if k != s.open { assert InodeAt(g, d, k) == s.files[k].rec; }
    }
    FilesFrame(g, d, d', s);
    InodeBitsFrame(g, d, d', |s.files|);
    DataBitsFrame(g, d, d', s.Used());
  }

  // ----- a new inode

  function EmptyFile(kind: Kind): File {
    File(EmptyRec(kind), [], [])
  }

  lemma EmptyFileOk(d: seq<Block>, n: InodeRec)
    requires n.WellFormed() && n.size == 0
    ensures FileOk(d, File(n, [], []))
  {
  }

  lemma NewInodeStep(g: Geometry, d: seq<Block>, d1: seq<Block>, s: State, kind: Kind)
    requires FsInv(g, d, s) && s.open == -1 && |s.files| < g.InodeCount()
    requires FlippedOnly(d, d1, 1, g.inodeBitmapBlocks, |s.files|) && Bit(d1, 1, |s.files|)
    ensures g.InodeAreaStart() + |s.files| / INODES_PER_BLOCK < |d1|
    ensures EmptyFile(kind).rec.WellFormed()
    ensures FsInv(g, PutInode(g, d1, |s.files|, EmptyFile(kind).rec),
                  s.(files := s.files + [EmptyFile(kind)]))
  {
    hide Bit, DecodeSuper, DecodeInode, EncodeInode;
    var f := EmptyFile(kind);
    var s' := s.(files := s.files + [f]);
    var d' := PutInode(g, d1, |s.files|, f.rec);
    EmptyFileOk(d', f.rec);
    hide FileOk;
    NewInodeTable(g, d, d1, s, f);
    FilesFrame(g, d, d', s);
    assert InodeBits(g, d1, |s.files| + 1) by {
      forall k | 0 <= k < g.InodeCount() ensures Bit(d1, 1, k) <==> k < |s.files| + 1 {
        assert Bit(d, 1, k) <==> k < |s.files|;
      }
    }
    InodeBitsFrame(g, d1, d', |s.files| + 1);
    DataBitsFrame(g, d, d', s.Used());
    assert Owned(s'.files, s'.owner);
  }

  lemma NewInodeTable(g: Geometry, d: seq<Block>, d1: seq<Block>, s: State, f: File)
    requires g.Ok() && |d| == |d1| == g.total && |s.files| < g.InodeCount() && s.open == -1
    requires Table(g, d, s.files, -1) && f.rec.WellFormed()
    requires SameFrom(d, d1, g.InodeAreaStart(), g.DataBitmapStart())
    ensures Table(g, PutInode(g, d1, |s.files|, f.rec), s.files + [f], -1)
  {
    hide DecodeInode, EncodeInode;
    var d' := PutInode(g, d1, |s.files|, f.rec);
    forall k | 0 <= k < |s.files| + 1 ensures InodeAt(g, d', k) == (s.files + [f])[k].rec {
      InodeAtOfPutInode(g, d1, |s.files|, f.rec, k);
      if k < |s.files| { assert InodeAt(g, d, k) == s.files[k].rec; }
    }
  }

  // First fit hands out inode numbers in order.
  lemma NextInode(g: Geometry, d: seq<Block>, s: State, j: nat)
    requires FsInv(g, d, s) && j < g.InodeCount()
    requires !Bit(d, 1, j) && forall i :: 0 <= i < j ==> Bit(d, 1, i)
    ensures j == |s.files|
  {
    assert Bit(d, 1, j) <==> j < |s.files|;
    assert !Bit(d, 1, |s.files|);
  }

  // ----- first fit stays on the device

  // While some data block is free, the lowest clear bit is the bit of a block on the device,
  // although the bitmap may have more bits than the data area has blocks.
  lemma FirstFitOnDevice(g: Geometry, d: seq<Block>, s: State, j: nat)
    requires FsInv(g, d, s) && |s.Used()| < g.dataAreaBlocks
    requires j <= g.dataBitmapBlocks * BLOCK_BITS
    requires forall i :: 0 <= i < j ==> Bit(d, g.DataBitmapStart(), i)
    ensures j < g.dataAreaBlocks
  {
    hide Bit, FilesOk, Owned, Table, InodeBits, FreeIsZero;
    SetBitsAreUsed(g, d, s.Used(), j);
  }

  lemma SetBitsAreUsed(g: Geometry, d: seq<Block>, used: set<nat>, j: nat)
    requires g.Ok() && |d| == g.total && DataBits(g, d, used)
    requires j <= g.dataBitmapBlocks * BLOCK_BITS
    requires forall i :: 0 <= i < j ==> Bit(d, g.DataBitmapStart(), i)
    ensures j <= |used|
  {
    hide Bit;
    var r := Span(g.DataAreaStart(), g.DataAreaStart() + j);
    forall b | b in r ensures b in used {
      assert Bit(d, g.DataBitmapStart(), b - g.DataAreaStart());
    }
    SpanSize(g.DataAreaStart(), g.DataAreaStart() + j);
    SubsetSize(r, used);
  }
}
