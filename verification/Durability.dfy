/** A file system from its creation through a run to a remount, and the one change that a remount can lose. */
module Durability {
  import opened Bytes
  import opened BlockCaches
  import opened Geometries
  import opened FsState
  import opened EasyFs
  import opened Directories
  import opened FsSpec
  import opened DirSpec
  import opened Vfs
  import opened FsRuns

  /** create and root_inode: an empty root directory, all of it on the device. */
  method Start(cache: BlockCacheManager, total: nat, inodeBitmapBlocks: nat) returns (root: Inode)
    requires cache.Calm() && cache.held == map[]
    requires Feasible(total, inodeBitmapBlocks) && |cache.disk| == total
    modifies cache.Repr
    ensures fresh(root) && fresh(root.fs) && root.fs.cache == cache && fresh(cache.Repr - old(cache.Repr))
    ensures root.fs.g == LayOut(total, inodeBitmapBlocks)
    ensures AtRest(root) && ContentsOf(root.fs.s) == FRESH && Current(root)
  {
    hide BlockCacheManager.Valid, FsInv, LayOut, Feasible;
    var fs := new EasyFileSystem.Create(cache, total, inodeBitmapBlocks);
    var pos := fs.DiskInodePos(0);
    root := new Inode(pos.0, pos.1, fs, 0);
    FreshSpec();
  }

  /** A run whose links are all flushed survives a remount, to the byte. */
  method RunAndRemount(root: Inode, ops: seq<Op>) returns (answers: seq<Answer>, again: Inode)
    requires AtRest(root) && Current(root) && EnabledRun(root.fs.g, ContentsOf(root.fs.s), ops)
    requires LinksFlushed(root.fs.g, ContentsOf(root.fs.s), ops)
    modifies root.fs, root.fs.cache.Repr
    ensures fresh(again) && fresh(again.fs) && again.fs.cache.device == root.fs.cache.device
    ensures AtRest(again) && again.fs.g == root.fs.g
    ensures answers == Answers(root.fs.g, old(ContentsOf(root.fs.s)), ops)
    ensures ContentsOf(again.fs.s) == RunOf(root.fs.g, old(ContentsOf(root.fs.s)), ops)
  {
    hide BlockCacheManager.Valid, FsInv, SpecInv, Step, Partition, LinksFlushed, CurrentAfter;
    root.fs.cache.SameSize();
    CurrentAfterMeans(root.fs.g, ContentsOf(root.fs.s), ops, true);
    answers := Run(root, ops);
    again := Remount(root);
  }

  /** The whole life of a file system: formatted, used and mounted again. */
  method FormatRunRemount(cache: BlockCacheManager, total: nat, inodeBitmapBlocks: nat, ops: seq<Op>)
    returns (answers: seq<Answer>, again: Inode)
    requires cache.Calm() && cache.held == map[]
    requires Feasible(total, inodeBitmapBlocks) && |cache.disk| == total
    requires SpecInv(FRESH) && EnabledRun(LayOut(total, inodeBitmapBlocks), FRESH, ops)
    requires LinksFlushed(LayOut(total, inodeBitmapBlocks), FRESH, ops)
    modifies cache.Repr
    ensures answers == Answers(LayOut(total, inodeBitmapBlocks), FRESH, ops)
    ensures AtRest(again) && ContentsOf(again.fs.s) == RunOf(LayOut(total, inodeBitmapBlocks), FRESH, ops)
  {
    hide BlockCacheManager.Valid, FsInv, SpecInv, Step, LinksFlushed, LayOut, Feasible;
    var root := Start(cache, total, inodeBitmapBlocks);
    answers, again := RunAndRemount(root, ops);
  }

  /**
   A link, made while the device is current, leaves the root's inode on the device as it was, and so the
   directory without the new entry. Unless the directory needs a new block, nothing on the device changes.
   */
  method LinkStaysBehind(root: Inode, k: nat, name: Name)
    requires AtRest(root) && Current(root) && Enabled(root.fs.g, ContentsOf(root.fs.s), Link(k, name))
    modifies root.fs, root.fs.cache.Repr
    ensures AtRest(root) && ContentsOf(root.fs.s) == Step(old(ContentsOf(root.fs.s)), Link(k, name))
    ensures root.blockId < |root.fs.cache.device.blocks| && root.blockId < |root.fs.cache.disk|
    ensures SameAt(old(root.fs.cache.device.blocks), root.fs.cache.device.blocks, root.blockId)
    ensures RootSize(root, root.fs.cache.device.blocks) == |old(root.fs.s).files[0].content|
    ensures RootSize(root, root.fs.cache.disk) == |old(root.fs.s).files[0].content| + DIRENT_SZ
    ensures |old(root.fs.s).files[0].content| % BLOCK_SZ != 0 ==>
              root.fs.cache.device.blocks == old(root.fs.cache.device.blocks)
    ensures !Current(root)
  {
    hide BlockCacheManager.Valid, FsInv, SpecInv, Step;
    RootRecord(root);
    var a := DoLink(root, k, name);
    RootRecord(root);
  }

  /** Whoever opens the device after such a link, the cache being lost, finds the files without it. */
  method LinkThenLoss(root: Inode, k: nat, name: Name) returns (again: Inode)
    requires AtRest(root) && Current(root) && Enabled(root.fs.g, ContentsOf(root.fs.s), Link(k, name))
    requires |root.fs.s.files[0].content| % BLOCK_SZ != 0
    modifies root.fs, root.fs.cache.Repr
    ensures fresh(again) && again.fs.cache.device == root.fs.cache.device
    ensures AtRest(again) && again.fs.g == root.fs.g && ContentsOf(again.fs.s) == old(ContentsOf(root.fs.s))
  {
    hide BlockCacheManager.Valid, FsInv, SpecInv, Step, Enabled;
    root.fs.cache.SameSize();
    ghost var s := root.fs.s;
    LinkStaysBehind(root, k, name);
    again := OpenDevice(root.fs.cache.device, root.fs.g, s);
  }

  /** Yet enough reads bring any link to the device: sixteen blocks that are not in the cache. */
  method ReadsBringTheLink(root: Inode, ids: seq<nat>)
    requires AtRest(root) && |ids| == BLOCK_CACHE_SIZE
    requires forall i :: 0 <= i < |ids| ==>
               ids[i] < |root.fs.cache.disk| && !Cached(root.fs.cache.queue, ids[i]) && ids[i] !in ids[..i]
    modifies root.fs.cache.Repr
    ensures AtRest(root) && Current(root) && root.fs.s == old(root.fs.s)
  {
    hide BlockCacheManager.Valid, FsInv, SpecInv, Cached;
    ReadsWriteBack(root.fs.cache, ids);
  }

  // One file with one name, then a second name for it.
  ghost function OneFile(): Contents {
    FreshSpec();
    Step(FRESH, Create([97]))
  }

  lemma OneFileFits(g: Geometry)
    requires g == LayOut(2048, 1)
    ensures SpecInv(FRESH) && Enabled(g, FRESH, Create([97]))
    ensures SpecInv(OneFile()) && |OneFile()| == 2 && |OneFile()[0]| == DIRENT_SZ
    ensures Enabled(g, OneFile(), Link(1, [98]))
  {
    FreshSpec();
    NoBindings();
    CreateKeepsInv(FRESH, [97]);
  }

  ghost function TwoNames(): Contents {
    OneFileFits(LayOut(2048, 1));
    Step(OneFile(), Link(1, [98]))
  }

  /**
   An input: in a new file system the second name of a file is in use, and not on the device. What the device
   holds, and open finds, is the file with its first name.
   */
  method LostLink() returns (root: Inode, ghost found: State)
    ensures AtRest(root) && !Current(root)
    ensures ContentsOf(root.fs.s) == TwoNames()
    ensures root.blockId < |root.fs.cache.device.blocks| && root.blockId < |root.fs.cache.disk|
    ensures RootSize(root, root.fs.cache.device.blocks) == DIRENT_SZ
    ensures RootSize(root, root.fs.cache.disk) == 2 * DIRENT_SZ
    ensures FsInv(root.fs.g, root.fs.cache.device.blocks, found) && found.loose == {} && found.open == -1
    ensures ContentsOf(found) == OneFile()
  {
    hide BlockCacheManager.Valid, FsInv, SpecInv, Step, Enabled, LayOut;
    var device := new BlockDevice(seq(2048, _ => ZERO_BLOCK));
    var cache := new BlockCacheManager(device);
    root := Start(cache, 2048, 1);
    OneFileFits(root.fs.g);
    var a := Do(root, Create([97]));
    found := root.fs.s;
    LinkStaysBehind(root, 1, [98]);
  }
}
