/** The write-back block cache: sixteen entries in front of a block device. */
module BlockCaches {
  import opened Basics
  import opened Bytes

  const BLOCK_CACHE_SIZE := 16

  // The deepest nesting of block accesses in the file system.
  const NESTING := 3

  // A handle that is out: the entry, and what the device had for its block when the handle was taken.
  datatype Handle = Handle(entry: BlockCache, onDevice: Block)

  // Taking a handle and dropping it again leaves the held handles as they were.
  lemma HandleReturned(was: map<nat, Handle>, held: map<nat, Handle>, h: BlockCache)
    requires h.blockId !in was && h.blockId in held && held == was[h.blockId := held[h.blockId]]
    ensures held - {h.blockId} == was
  {
  }

  class BlockDevice {
    var blocks: seq<Block>

    constructor (blocks: seq<Block>)
      ensures this.blocks == blocks
    {
      this.blocks := blocks;
    }

    method ReadBlock(id: nat) returns (b: Block)
      requires id < |blocks|
      ensures b == blocks[id]
    {
      b := blocks[id];
    }

    method WriteBlock(id: nat, b: Block)
      requires id < |blocks|
      modifies this
      ensures blocks == old(blocks)[id := b]
    {
      blocks := blocks[id := b];
    }
  }

  /** One cached block. `handles` is its Arc strong count less the queue's own reference. */
  class BlockCache {
    var data: Block
    const blockId: nat
    const device: BlockDevice
    var modified: bool
    var handles: nat

    constructor (id: nat, device: BlockDevice)
      requires id < |device.blocks|
      ensures blockId == id && this.device == device
      ensures data == device.blocks[id] && !modified && handles == 0
    {
      var b := device.ReadBlock(id);
      data := b;
      blockId := id;
      this.device := device;
      modified := false;
      handles := 0;
    }

    method Modify(b: Block)
      modifies this
      ensures data == b && modified && handles == old(handles)
    {
      data := b;
      modified := true;
    }

    method Sync()
      requires blockId < |device.blocks|
      modifies this, device
      ensures data == old(data) && handles == old(handles) && !modified
      ensures device.blocks ==
              if old(modified) then old(device.blocks)[blockId := data] else old(device.blocks)
    {
      if modified {
        modified := false;
        device.WriteBlock(blockId, data);
      }
    }
  }

  ghost predicate UniqueIds(queue: seq<BlockCache>) {
    forall i, j :: 0 <= i < j < |queue| ==> queue[i].blockId != queue[j].blockId
  }

  lemma OnlyEntry(queue: seq<BlockCache>, h: BlockCache)
    requires UniqueIds(queue) && h in queue
    ensures forall e :: e in queue && e.blockId == h.blockId ==> e == h
  {
  }

  // Blocks were written back and nothing else reached the device.
  ghost predicate Settling(was: seq<Block>, now: seq<Block>, disk: seq<Block>) {
    |now| == |was| == |disk| && forall id :: 0 <= id < |now| ==> now[id] == was[id] || now[id] == disk[id]
  }

  // The two agree at block id.
  ghost predicate SameAt(a: seq<Block>, b: seq<Block>, id: nat) {
    id < |a| && id < |b| && a[id] == b[id]
  }

  ghost predicate Cached(queue: seq<BlockCache>, id: nat) {
    exists e :: e in queue && e.blockId == id
  }

  // An entry of the queue from outside: its block, and whether it waits to be written back.
  datatype Slot = Slot(id: nat, dirty: bool)

  // The queue after a miss with no handle out: first in, first out.
  ghost function Loaded(q: seq<Slot>, id: nat): seq<Slot> {
    (if |q| == BLOCK_CACHE_SIZE then q[1..] else q) + [Slot(id, false)]
  }

  class BlockCacheManager {
    const device: BlockDevice
    var queue: seq<BlockCache>

    // What a reader of any block sees: the plain array of blocks this cache stands for.
    ghost var disk: seq<Block>
    // The handles given out and not yet dropped, by block id. A handle is also a held lock.
    ghost var held: map<nat, Handle>
    // The most handles ever out at once.
    ghost var peak: nat
    ghost var Repr: set<object>

    // An entry shows the current content of its block; a clean one equals the device.
    ghost predicate EntryOk(e: BlockCache)
      reads this, device, e
    {
      && e.device == device
      && e.blockId < |disk| == |device.blocks|
      && e.data == disk[e.blockId]
      && (!e.modified ==> device.blocks[e.blockId] == disk[e.blockId])
      && e.handles == (if e.blockId in held then 1 else 0)
    }

    // Valid, and no run so far has nested block accesses deeper than NESTING.
    ghost predicate Calm()
      reads this, Repr
    {
      Valid() && peak <= NESTING
    }

    ghost predicate Valid()
      reads this, Repr
      ensures Valid() ==> this in Repr
    {
      && this in Repr && device in Repr
      && Repr == {this, device} + (set e | e in queue)
      && |queue| <= BLOCK_CACHE_SIZE
      && UniqueIds(queue)
      && |disk| == |device.blocks|
      && (forall e :: e in queue ==> EntryOk(e))
      && (forall id :: 0 <= id < |disk| && !Cached(queue, id) ==> device.blocks[id] == disk[id])
      && (forall id :: id in held ==> Pinned(id))
    }

    // An entry that is out stays in the queue and is not written back.
    ghost predicate Pinned(id: nat)
      requires id in held
      reads this, device
    {
      && held[id].entry in queue && held[id].entry.blockId == id
      && id < |device.blocks| && device.blocks[id] == held[id].onDevice
    }

    // h is out.
    ghost predicate Out(h: BlockCache)
      reads this
    {
      h.blockId in held && held[h.blockId].entry == h
    }

    ghost predicate OnlyOut(h: BlockCache)
      reads this
    {
      Out(h) && held == map[h.blockId := held[h.blockId]]
    }

    constructor (device: BlockDevice)
      ensures Valid() && fresh(Repr - {device}) && this.device == device
      ensures disk == device.blocks && held == map[] && peak == 0
    {
      this.device := device;
      queue := [];
      disk := device.blocks;
      held := map[];
      peak := 0;
      Repr := {this, device};
    }

    method BlockCount() returns (n: nat)
      requires Valid()
      ensures n == |disk|
    {
      n := |device.blocks|;
    }

    lemma SameSize()
      requires Valid()
      ensures |device.blocks| == |disk| && device in Repr
    {
    }

    // The device still has what it had for the block of a handle that is out.
    lemma NotWrittenBack(h: BlockCache)
      requires Valid() && Out(h)
      ensures h.blockId < |device.blocks| == |disk| && device.blocks[h.blockId] == held[h.blockId].onDevice
    {
      assert Pinned(h.blockId);
    }

    lemma FewEntries()
      requires Valid()
      ensures |Slots()| <= BLOCK_CACHE_SIZE
    {
    }

    ghost function Slots(): (q: seq<Slot>)
      reads this, queue
      ensures |q| == |queue| && forall i :: 0 <= i < |q| ==> q[i] == Slot(queue[i].blockId, queue[i].modified)
    {
      seq(|queue|, i requires 0 <= i < |queue| reads this, queue => Slot(queue[i].blockId, queue[i].modified))
    }

    // Sixteen unpinned entries cannot all be held when fewer than sixteen handles are out.
    lemma VictimExists()
      requires Valid()
      requires |held| < BLOCK_CACHE_SIZE
      requires |queue| == BLOCK_CACHE_SIZE
      ensures exists i :: 0 <= i < |queue| && queue[i].handles == 0
    {
      if forall i :: 0 <= i < |queue| ==> queue[i].handles != 0 {
        ghost var ids := QueueIds(|queue|);
        forall id | id in ids ensures id in held.Keys {
          var i :| 0 <= i < |queue| && queue[i].blockId == id;
          assert EntryOk(queue[i]);
        }
        SubsetSize(ids, held.Keys);
      }
    }

    ghost function QueueIds(n: nat): (ids: set<nat>)
      reads this
      requires n <= |queue| && UniqueIds(queue)
      ensures |ids| == n
      ensures forall id :: id in ids <==> exists i :: 0 <= i < n && queue[i].blockId == id
    {
      if n == 0 then {} else QueueIds(n - 1) + {queue[n - 1].blockId}
    }

    /** get_block_cache(id).lock(): hit, or evict the first unpinned entry and load. */
    method Acquire(id: nat) returns (h: BlockCache)
      requires Valid()
      requires id < |disk|
      requires id !in held && |held| < BLOCK_CACHE_SIZE
      modifies Repr
      ensures Valid() && fresh(Repr - old(Repr))
      ensures disk == old(disk) && held == old(held)[id := Handle(h, old(device.blocks)[id])]
      ensures old(device.blocks) == disk ==> device.blocks == disk
      ensures old(held) == map[] && !Cached(old(queue), id) ==> Slots() == Loaded(old(Slots()), id)
      ensures peak == if |held| > old(peak) then |held| else old(peak)
      ensures h.blockId == id && h in queue
    {
      var i := 0;
      while i < |queue| && queue[i].blockId != id
        invariant 0 <= i <= |queue|
        invariant forall j :: 0 <= j < i ==> queue[j].blockId != id
      {
        i := i + 1;
      }
      if i == |queue| {
        assert !Cached(queue, id);
        i := Load(id);
      }
      h := queue[i];
      Pin(h);
      NotePeak();
    }

    ghost method NotePeak()
      requires Valid()
      modifies `peak
      ensures Valid()
      ensures peak == if |held| > old(peak) then |held| else old(peak)
    {
      hide UniqueIds, Cached;
      peak := if |held| > peak then |held| else peak;
    }

    /** A miss: makes room if the queue is full, then reads the block and appends it. */
    method Load(id: nat) returns (i: nat)
      requires Valid()
      requires id < |disk| && !Cached(queue, id)
      requires |held| < BLOCK_CACHE_SIZE
      modifies Repr
      ensures Valid() && fresh(Repr - old(Repr))
      ensures disk == old(disk) && held == old(held) && peak == old(peak)
      ensures i < |queue| && queue[i].blockId == id
      ensures Settling(old(device.blocks), device.blocks, disk) && device.blocks[id] == old(device.blocks)[id]
      ensures held == map[] ==> Slots() == Loaded(old(Slots()), id)
    {
      if |queue| == BLOCK_CACHE_SIZE {
        Evict();
      }
      i := |queue|;
      var e := new BlockCache(id, device);
      Push(e);
    }

    method Push(e: BlockCache)
      requires Valid() && e !in Repr
      requires |queue| < BLOCK_CACHE_SIZE
      requires e.device == device && e.blockId < |disk| && !Cached(queue, e.blockId)
      requires e.data == disk[e.blockId] && !e.modified && e.handles == 0
      modifies this
      ensures Valid() && Repr == old(Repr) + {e}
      ensures disk == old(disk) && held == old(held) && peak == old(peak)
      ensures queue == old(queue) + [e]
    {
      assert device.blocks[e.blockId] == disk[e.blockId];
      queue := queue + [e];
      Repr := Repr + {e};
      assert forall i :: 0 <= i < |old(queue)| ==> old(queue)[i].blockId != e.blockId;
    }

    method Pin(h: BlockCache)
      requires Valid() && h in queue
      requires h.blockId !in held
      modifies Repr
      ensures Valid() && Repr == old(Repr) && queue == old(queue)
      ensures h.blockId < |device.blocks|
      ensures disk == old(disk) && held == old(held)[h.blockId := Handle(h, device.blocks[h.blockId])] && peak == old(peak)
      ensures device.blocks == old(device.blocks) && Slots() == old(Slots())
    {
      OnlyEntry(queue, h);
      hide UniqueIds, Cached;
      assert EntryOk(h);
      h.handles := h.handles + 1;
      held := held[h.blockId := Handle(h, device.blocks[h.blockId])];
    }

    /** Drops the first entry no one holds; its Drop writes it back when dirty. */
    method Evict()
      requires Valid()
      requires |queue| == BLOCK_CACHE_SIZE && |held| < BLOCK_CACHE_SIZE
      modifies Repr
      ensures Valid() && Repr <= old(Repr)
      ensures disk == old(disk) && held == old(held) && peak == old(peak)
      ensures |queue| == BLOCK_CACHE_SIZE - 1
      ensures forall e :: e in queue ==> e in old(queue)
      ensures Settling(old(device.blocks), device.blocks, disk)
      ensures forall id :: 0 <= id < |device.blocks| && !Cached(old(queue), id) ==> device.blocks[id] == old(device.blocks)[id]
      ensures held == map[] ==> Slots() == old(Slots())[1..]
    {
      hide Valid, Slots;
      var idx := Victim();
      assert queue[idx] in queue;
      SyncEntry(idx);
      Drain(idx);
      assert idx == 0 ==> Slots() == old(Slots())[1..];
    }

    /** The scan for the first entry no one holds. */
    method Victim() returns (idx: nat)
      requires Valid() && |queue| == BLOCK_CACHE_SIZE && |held| < BLOCK_CACHE_SIZE
      ensures idx < |queue| && queue[idx].handles == 0 && forall j :: 0 <= j < idx ==> queue[j].handles != 0
      ensures queue[idx] in Repr && device in Repr && (held == map[] ==> idx == 0)
    {
      VictimExists();
      assert EntryOk(queue[0]);
      idx := 0;
      while queue[idx].handles != 0
        invariant 0 <= idx < |queue|
        invariant exists i :: idx <= i < |queue| && queue[i].handles == 0
        invariant forall j :: 0 <= j < idx ==> queue[j].handles != 0
        decreases |queue| - idx
      {
        idx := idx + 1;
      }
    }

    method SyncEntry(idx: nat)
      requires Valid() && idx < |queue| && queue[idx].handles == 0
      modifies queue[idx], device
      ensures Valid() && !queue[idx].modified
      ensures queue[idx].handles == 0
      ensures Slots() == old(Slots())[idx := Slot(queue[idx].blockId, false)]
      ensures Settling(old(device.blocks), device.blocks, disk)
      ensures forall id :: 0 <= id < |device.blocks| && id != queue[idx].blockId ==> device.blocks[id] == old(device.blocks)[id]
    {
      assert EntryOk(queue[idx]);
      queue[idx].Sync();
    }

    method Drain(idx: nat)
      requires Valid() && idx < |queue|
      requires queue[idx].handles == 0 && !queue[idx].modified
      modifies this
      ensures Valid() && Repr <= old(Repr)
      ensures disk == old(disk) && held == old(held) && peak == old(peak)
      ensures queue == old(queue)[..idx] + old(queue)[idx + 1..]
    {
      var was, victim := queue, queue[idx];
      assert EntryOk(victim);
      queue := was[..idx] + was[idx + 1..];
      Repr := {this, device} + (set e | e in queue);
      assert forall e :: e in queue ==> e in was;
      forall e | e in was && e != victim ensures e in queue {
        var i :| 0 <= i < |was| && was[i] == e;
        assert queue[if i < idx then i else i - 1] == e;
      }
    }

    /** Drops a handle (the guard and the Arc end together at the end of the statement). */
    method Release(h: BlockCache)
      requires Valid()
      requires Out(h)
      modifies Repr
      ensures Valid() && Repr == old(Repr)
      ensures disk == old(disk) && held == old(held) - {h.blockId} && peak == old(peak)
      ensures device.blocks == old(device.blocks) && Slots() == old(Slots())
    {
      OnlyEntry(queue, h);
      hide UniqueIds, Cached;
      assert EntryOk(h);
      h.handles := h.handles - 1;
      held := held - {h.blockId};
    }

    method Read(h: BlockCache) returns (b: Block)
      requires Valid()
      requires Out(h)
      ensures h.blockId < |disk| && b == disk[h.blockId]
    {
      assert EntryOk(h);
      b := h.data;
    }

    method Modify(h: BlockCache, b: Block)
      requires Valid()
      requires Out(h)
      modifies Repr
      ensures Valid() && Repr == old(Repr)
      ensures h.blockId < |disk| && disk == old(disk)[h.blockId := b] && held == old(held)
      ensures peak == old(peak) && device.blocks == old(device.blocks)
    {
      OnlyEntry(queue, h);
      hide UniqueIds, Cached;
      assert EntryOk(h);
      h.Modify(b);
      disk := disk[h.blockId := b];
    }

    /** get_block_cache(id).lock().read(0, ...) for the length of one statement. */
    method Peek(id: nat) returns (b: Block)
      requires Calm() && id < |disk|
      requires id !in held && |held| < NESTING
      modifies Repr
      ensures Calm() && fresh(Repr - old(Repr))
      ensures disk == old(disk) && held == old(held)
      ensures old(device.blocks) == disk ==> device.blocks == disk
      ensures old(held) == map[] && !Cached(old(queue), id) ==> Slots() == Loaded(old(Slots()), id)
      ensures b == disk[id]
    {
      hide Valid;
      var h := Acquire(id);
      b := Read(h);
      HandleReturned(old(held), held, h);
      Release(h);
    }

    // One assignment inside a modify closure: block[i] = v.
    method SetWordHeld(h: BlockCache, i: nat, v: nat)
      requires Calm() && i < 128
      requires Out(h)
      modifies Repr
      ensures Calm() && Repr == old(Repr) && held == old(held)
      ensures h.blockId < |disk| == |old(disk)|
      ensures disk == old(disk)[h.blockId := SetWord(old(disk)[h.blockId], i, v)]
    {
      hide Valid;
      var b := Read(h);
      Modify(h, SetWord(b, i, v));
    }

    /** get_block_cache(id).lock().modify(0, |block: &mut IndirectBlock| block[i] = v). */
    method SetWordIn(id: nat, i: nat, v: nat)
      requires Calm() && id < |disk| && i < 128
      requires id !in held && |held| < NESTING
      modifies Repr
      ensures Calm() && fresh(Repr - old(Repr))
      ensures disk == old(disk)[id := SetWord(old(disk)[id], i, v)] && held == old(held)
    {
      hide Valid;
      var h := Acquire(id);
      var b := Read(h);
      Modify(h, SetWord(b, i, v));
      HandleReturned(old(held), held, h);
      Release(h);
    }

    /** get_block_cache(id).lock().modify(0, |block: &mut DataBlock| block[lo..].copy_from_slice(piece)). */
    method SpliceIn(id: nat, lo: nat, piece: seq<byte>)
      requires Calm() && id < |disk| && lo + |piece| <= 512
      requires id !in held && |held| < NESTING
      modifies Repr
      ensures Calm() && fresh(Repr - old(Repr))
      ensures disk == old(disk)[id := Splice(old(disk)[id], lo, piece)] && held == old(held)
      ensures old(device.blocks) == old(disk) ==> device.blocks == old(device.blocks)
    {
      hide Valid;
      var h := Acquire(id);
      var b := Read(h);
      Modify(h, Splice(b, lo, piece));
      HandleReturned(old(held), held, h);
      Release(h);
    }

    /** get_block_cache(id).lock().modify(0, ...) with a closure that turns the block into b. */
    method PutIn(id: nat, b: Block)
      requires Calm() && id < |disk|
      requires id !in held && |held| < NESTING
      modifies Repr
      ensures Calm() && fresh(Repr - old(Repr))
      ensures disk == old(disk)[id := b] && held == old(held)
    {
      hide Valid;
      var h := Acquire(id);
      Modify(h, b);
      HandleReturned(old(held), held, h);
      Release(h);
    }

    /** block_cache_sync_all: locks every entry in turn, so no lock may be held. */
    method SyncAll()
      requires Valid()
      requires held == map[]
      modifies Repr
      ensures Valid() && Repr == old(Repr)
      ensures disk == old(disk) && held == map[] && peak == old(peak)
      ensures device.blocks == disk
    {
      var i := 0;
      while i < |queue|
        invariant 0 <= i <= |queue|
        invariant Valid() && Repr == old(Repr) && queue == old(queue)
        invariant disk == old(disk) && held == map[] && peak == old(peak)
        invariant forall j :: 0 <= j < i ==> !queue[j].modified
      {
        assert EntryOk(queue[i]);
        queue[i].Sync();
        i := i + 1;
      }
      forall id | 0 <= id < |disk| ensures device.blocks[id] == disk[id] {
        if Cached(queue, id) {
          var e :| e in queue && e.blockId == id;
          assert EntryOk(e);
        }
      }
    }
  }

  // ----- whole runs against a plain array of blocks

  // Handles are taken, used and dropped in any order, so blocks are evicted while others are out.
  datatype Access = Get(id: nat) | Read(id: nat) | Modify(id: nat, block: Block) | Drop(id: nat) | Flush

  // What an access asks of its caller over n blocks, when the handles on out are theirs: no block
  // is taken twice, not all sixteen entries are out when one is taken, and a flush waits for all.
  ghost predicate Allowed(n: nat, out: set<nat>, op: Access) {
    match op
    case Get(id) => id < n && id !in out && |out| < BLOCK_CACHE_SIZE
    case Flush => out == {}
    case _ => op.id in out && op.id < n
  }

  ghost function OutAfter(out: set<nat>, op: Access): set<nat> {
    match op
    case Get(id) => out + {id}
    case Drop(id) => out - {id}
    case _ => out
  }

  // The plain array after one access, and what the access sees of it.
  ghost function After(d: seq<Block>, op: Access): (r: seq<Block>)
    ensures |r| == |d|
  {
    if op.Modify? && op.id < |d| then d[op.id := op.block] else d
  }

  ghost function SeenBy(d: seq<Block>, op: Access): seq<Block> {
    if op.Read? && op.id < |d| then [d[op.id]] else []
  }

  ghost predicate Legal(n: nat, out: set<nat>, ops: seq<Access>)
    decreases |ops|
  {
    ops == [] || (Allowed(n, out, ops[0]) && Legal(n, OutAfter(out, ops[0]), ops[1..]))
  }

  ghost function Final(d: seq<Block>, ops: seq<Access>): (r: seq<Block>)
    ensures |r| == |d|
    decreases |ops|
  {
    if ops == [] then d else Final(After(d, ops[0]), ops[1..])
  }

  ghost function Seen(d: seq<Block>, ops: seq<Access>): seq<Block>
    decreases |ops|
  {
    if ops == [] then [] else SeenBy(d, ops[0]) + Seen(After(d, ops[0]), ops[1..])
  }

  // The handles a caller has are those the cache has given out.
  ghost predicate Owns(handles: map<nat, BlockCache>, held: map<nat, Handle>) {
    handles.Keys == held.Keys && forall id :: id in handles ==> handles[id].blockId == id && held[id].entry == handles[id]
  }

  // One access through the cache.
  method Perform(m: BlockCacheManager, handles: map<nat, BlockCache>, op: Access)
    returns (seen: seq<Block>, handles': map<nat, BlockCache>)
    requires m.Valid() && Owns(handles, m.held) && Allowed(|m.disk|, handles.Keys, op)
    modifies m.Repr
    ensures m.Valid() && fresh(m.Repr - old(m.Repr))
    ensures Owns(handles', m.held) && handles'.Keys == OutAfter(handles.Keys, op)
    ensures m.disk == After(old(m.disk), op) && seen == SeenBy(old(m.disk), op)
    ensures op.Flush? ==> m.device.blocks == m.disk
  {
    hide BlockCacheManager.Valid, BlockCacheManager.Slots, Loaded;
    seen, handles' := [], handles;
    match op {
      case Get(id) =>
        assert |handles.Keys| == |m.held|;
        var h := m.Acquire(id);
        handles' := handles[id := h];
      case Read(id) =>
        var b := m.Read(handles[id]);
        seen := [b];
      case Modify(id, b) =>
        m.Modify(handles[id], b);
      case Drop(id) =>
        m.Release(handles[id]);
        handles' := handles - {id};
      case Flush =>
        assert m.held == map[];
        m.SyncAll();
    }
  }

  /**
   Any run of accesses, whatever it evicts and whichever handles are out meanwhile, reads what the
   plain array would give; every handle stays good, and a flush lands the array on the device.
   */
  method Replay(m: BlockCacheManager, handles: map<nat, BlockCache>, ops: seq<Access>)
    returns (seen: seq<Block>, handles': map<nat, BlockCache>)
    requires m.Valid() && Owns(handles, m.held) && Legal(|m.disk|, handles.Keys, ops)
    modifies m.Repr
    ensures m.Valid() && fresh(m.Repr - old(m.Repr)) && Owns(handles', m.held)
    ensures m.disk == Final(old(m.disk), ops) && seen == Seen(old(m.disk), ops)
    ensures ops != [] && ops[|ops| - 1].Flush? ==> m.device.blocks == m.disk
    decreases |ops|
  {
    hide BlockCacheManager.Valid, Allowed, After, SeenBy, OutAfter, Owns;
    if ops == [] {
      return [], handles;
    }
    seen, handles' := Perform(m, handles, ops[0]);
    if |ops| > 1 {
      assert ops[1..][|ops| - 2] == ops[|ops| - 1];
      var more;
      more, handles' := Replay(m, handles', ops[1..]);
      seen := seen + more;
    }
  }

  // ----- what reads do to the device

  // The queue q after the misses ids, of which there are at most sixteen.
  ghost function LoadedAll(q: seq<Slot>, ids: seq<nat>): seq<Slot>
    requires |q| <= BLOCK_CACHE_SIZE && |ids| <= BLOCK_CACHE_SIZE
  {
    var gone := if |q| + |ids| <= BLOCK_CACHE_SIZE then 0 else |q| + |ids| - BLOCK_CACHE_SIZE;
    q[gone..] + seq(|ids|, i requires 0 <= i < |ids| => Slot(ids[i], false))
  }

  lemma LoadedNext(q: seq<Slot>, ids: seq<nat>, id: nat)
    requires |q| <= BLOCK_CACHE_SIZE && |ids| < BLOCK_CACHE_SIZE
    ensures LoadedAll(q, ids + [id]) == Loaded(LoadedAll(q, ids), id)
  {
  }

  lemma LoadedEnds(q: seq<Slot>, ids: seq<nat>)
    requires |q| <= BLOCK_CACHE_SIZE && |ids| == BLOCK_CACHE_SIZE
    ensures LoadedAll(q, []) == q && LoadedAll(q, ids[..0]) == q
    ensures forall s :: s in LoadedAll(q, ids) ==> !s.dirty
  {
    assert q[|q|..] == [] && q[0..] == q;
  }

  lemma NotCached(m: BlockCacheManager, q: seq<Slot>, ids: seq<nat>, id: nat)
    requires |q| <= BLOCK_CACHE_SIZE && |ids| <= BLOCK_CACHE_SIZE && m.Slots() == LoadedAll(q, ids)
    requires id !in ids && forall s :: s in q ==> s.id != id
    ensures !Cached(m.queue, id)
  {
    forall i | 0 <= i < |m.queue| ensures m.queue[i].blockId != id { assert m.Slots()[i].id != id; }
  }

  lemma AllClean(m: BlockCacheManager)
    requires m.Valid() && forall s :: s in m.Slots() ==> !s.dirty
    ensures m.device.blocks == m.disk
  {
    forall id | 0 <= id < |m.disk| ensures m.device.blocks[id] == m.disk[id] {
      if Cached(m.queue, id) {
        var e :| e in m.queue && e.blockId == id;
        var i :| 0 <= i < |m.queue| && m.queue[i] == e;
        assert m.Slots()[i] in m.Slots() && m.EntryOk(e);
      }
    }
  }

  /** Sixteen blocks read that are not in the cache push every change out to the device, without a flush. */
  method ReadsWriteBack(m: BlockCacheManager, ids: seq<nat>)
    requires m.Calm() && m.held == map[] && |ids| == BLOCK_CACHE_SIZE
    requires forall i :: 0 <= i < |ids| ==> ids[i] < |m.disk| && !Cached(m.queue, ids[i]) && ids[i] !in ids[..i]
    modifies m.Repr
    ensures m.Calm() && fresh(m.Repr - old(m.Repr)) && m.held == map[]
    ensures m.disk == old(m.disk) && m.device.blocks == m.disk
  {
    hide BlockCacheManager.Valid, BlockCacheManager.Slots, Loaded, LoadedAll, Cached;
    ghost var q := m.Slots();
    m.FewEntries();
    SlotsCached(m, ids);
    LoadedEnds(q, ids);
    var i := 0;
    while i < |ids|
      invariant 0 <= i <= |ids|
      invariant m.Calm() && fresh(m.Repr - old(m.Repr)) && m.held == map[] && m.disk == old(m.disk)
      invariant m.Slots() == LoadedAll(q, ids[..i])
    {
      assert ids[i] !in ids[..i];
      NotCached(m, q, ids[..i], ids[i]);
      LoadedNext(q, ids[..i], ids[i]);
      assert ids[..i + 1] == ids[..i] + [ids[i]];
      var b := m.Peek(ids[i]);
      i := i + 1;
    }
    assert ids[..i] == ids;
    AllClean(m);
  }

  lemma SlotsCached(m: BlockCacheManager, ids: seq<nat>)
    requires forall i :: 0 <= i < |ids| ==> !Cached(m.queue, ids[i])
    ensures forall s, i :: s in m.Slots() && 0 <= i < |ids| ==> s.id != ids[i]
  {
    forall j, i | 0 <= j < |m.queue| && 0 <= i < |ids| ensures m.Slots()[j].id != ids[i] {
      assert m.queue[j] in m.queue;
    }
  }
}
