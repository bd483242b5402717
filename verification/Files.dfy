/** The bytes of a file over its flat block list: chunking, zero extension and overwriting. */
module Files {
  import opened Bytes
  import opened Layout

  // An inode together with what it stores.
  datatype File = File(rec: InodeRec, ids: seq<nat>, content: seq<byte>)

  // The i-th block of a byte sequence, padded with zeros past its end.
  function Chunk(c: seq<byte>, i: nat): Block {
    seq(512, j requires 0 <= j < 512 => if 512 * i + j < |c| then c[512 * i + j] else 0)
  }

  // Every data block holds its chunk, so the tail past the size is zero.
  ghost predicate Stores(d: seq<Block>, ids: seq<nat>, c: seq<byte>) {
    && OnDevice(d, ids)
    && |ids| == TotalBlocks(|c|)
    && |c| <= MAX_SIZE
    && forall i :: 0 <= i < DataBlocks(|c|) ==> StoresChunk(d, ids, c, i)
  }

  ghost predicate StoresChunk(d: seq<Block>, ids: seq<nat>, c: seq<byte>, i: nat)
    requires OnDevice(d, ids)
  {
    Pos(i) < |ids| && d[ids[Pos(i)]] == Chunk(c, i)
  }

  ghost predicate FileOk(d: seq<Block>, f: File) {
    && f.rec.size == |f.content|
    && Indexed(f.rec, d, f.ids)
    && Distinct(f.ids)
    && Stores(d, f.ids, f.content)
  }

  // A file looks at its own blocks only.
  lemma FileFrame(d: seq<Block>, d': seq<Block>, f: File)
    requires FileOk(d, f) && |d'| == |d|
    requires forall p :: 0 <= p < |f.ids| ==> d'[f.ids[p]] == d[f.ids[p]]
    ensures FileOk(d', f)
  {
    IndexedFrame(f.rec, d, d', f.ids);
    forall i | 0 <= i < DataBlocks(|f.content|) ensures StoresChunk(d', f.ids, f.content, i) {
      assert StoresChunk(d, f.ids, f.content, i);
    }
  }

  // The content is determined by the size and the blocks.
  lemma StoredContentIsUnique(d: seq<Block>, ids: seq<nat>, c: seq<byte>, c': seq<byte>)
    requires Stores(d, ids, c) && Stores(d, ids, c') && |c| == |c'|
    ensures c == c'
  {
    forall k | 0 <= k < |c| ensures c[k] == c'[k] {
      assert StoresChunk(d, ids, c, k / 512) && StoresChunk(d, ids, c', k / 512);
      assert Chunk(c, k / 512)[k % 512] == c[k];
      assert Chunk(c', k / 512)[k % 512] == c'[k];
    }
  }

  // ----- growth

  ghost predicate SameExceptIndex(d: seq<Block>, d': seq<Block>, ids: seq<nat>) {
    && |d'| == |d|
    && forall b :: 0 <= b < |d| && !IndexBlock(ids, b) ==> d'[b] == d[b]
  }

  ghost predicate IndexBlock(ids: seq<nat>, b: nat) {
    exists p :: 0 <= p < |ids| && IsIndex(p) && ids[p] == b
  }

  lemma DataIsNotIndex(ids: seq<nat>, p: nat)
    requires Distinct(ids) && p < |ids| && !IsIndex(p)
    ensures !IndexBlock(ids, ids[p])
  {
  }

  lemma ChunkOfExtended(c: seq<byte>, z: nat, i: nat)
    ensures i < DataBlocks(|c|) ==> Chunk(c + Zeros(z), i) == Chunk(c, i)
    ensures i >= DataBlocks(|c|) ==> Chunk(c + Zeros(z), i) == ZERO_BLOCK
  {
  }

  // Growing by fresh zero blocks extends the content by zeros.
  lemma GrowStores(d: seq<Block>, d': seq<Block>, ids: seq<nat>, added: seq<nat>, c: seq<byte>, z: nat)
    requires Stores(d, ids, c) && |c| + z <= MAX_SIZE
    requires |ids| + |added| == TotalBlocks(|c| + z)
    requires Distinct(ids + added) && OnDevice(d, added)
    requires SameExceptIndex(d, d', ids + added)
    requires forall p :: 0 <= p < |added| ==> d[added[p]] == ZERO_BLOCK
    ensures Stores(d', ids + added, c + Zeros(z))
  {
    var ids', c' := ids + added, c + Zeros(z);
    forall i | 0 <= i < DataBlocks(|c'|) ensures StoresChunk(d', ids', c', i) {
      PosInCount(i, DataBlocks(|c'|));
      PosInCount(i, DataBlocks(|c|));
      PosIsData(i);
      DataIsNotIndex(ids', Pos(i));
      ChunkOfExtended(c, z, i);
      if i < DataBlocks(|c|) {
        assert StoresChunk(d, ids, c, i);
      } else {
        assert ids'[Pos(i)] == added[Pos(i) - |ids|];
      }
    }
  }

  // ----- overwriting inside one block

  lemma ChunkOfOverwritten(c: seq<byte>, i: nat, lo: nat, s: seq<byte>, j: nat)
    requires lo + |s| <= 512 && 512 * i + lo + |s| <= |c|
    ensures Chunk(Splice(c, 512 * i + lo, s), j) == if j == i then Splice(Chunk(c, i), lo, s) else Chunk(c, j)
  {
  }

  lemma OverwriteStores(d: seq<Block>, ids: seq<nat>, c: seq<byte>, i: nat, lo: nat, s: seq<byte>)
    requires Stores(d, ids, c) && Distinct(ids)
    requires lo + |s| <= 512 && 512 * i + lo + |s| <= |c| && 512 * i < |c|
    ensures Pos(i) < |ids|
    ensures d[ids[Pos(i)]] == Chunk(c, i)
    ensures Stores(d[ids[Pos(i)] := Splice(Chunk(c, i), lo, s)], ids, Splice(c, 512 * i + lo, s))
  {
    assert i < DataBlocks(|c|);
    assert StoresChunk(d, ids, c, i);
    var d' := d[ids[Pos(i)] := Splice(Chunk(c, i), lo, s)];
    var c' := Splice(c, 512 * i + lo, s);
    forall j | 0 <= j < DataBlocks(|c'|) ensures StoresChunk(d', ids, c', j) {
      assert StoresChunk(d, ids, c, j);
      ChunkOfOverwritten(c, i, lo, s, j);
      if j < i { PosIsMonotone(j, i); } else if i < j { PosIsMonotone(i, j); }
    }
  }

  // The file whose bytes from offset on are overwritten by s.
  function Overwritten(f: File, offset: nat, s: seq<byte>): (g: File)
    requires offset + |s| <= |f.content|
    ensures g.rec == f.rec && g.ids == f.ids && |g.content| == |f.content|
  {
    f.(content := Splice(f.content, offset, s))
  }

  lemma OverwrittenByNothing(f: File, offset: nat, buf: seq<byte>)
    requires offset <= |f.content|
    ensures Overwritten(f, offset, buf[..0]) == f
  {
    assert Splice(f.content, offset, buf[..0]) == f.content;
  }

  lemma OverwrittenFurther(f: File, offset: nat, buf: seq<byte>, done: nat, more: nat)
    requires done + more <= |buf| && offset + done + more <= |f.content|
    ensures Overwritten(Overwritten(f, offset, buf[..done]), offset + done, buf[done..done + more])
         == Overwritten(f, offset, buf[..done + more])
  {
    assert Splice(Splice(f.content, offset, buf[..done]), offset + done, buf[done..done + more])
        == Splice(f.content, offset, buf[..done + more]);
  }

  lemma WritePiece(d: seq<Block>, f: File, i: nat, lo: nat, s: seq<byte>)
    requires FileOk(d, f)
    requires lo + |s| <= 512 && 512 * i + lo + |s| <= |f.content| && 512 * i < |f.content|
    ensures Pos(i) < |f.ids| && f.ids[Pos(i)] < |d|
    ensures FileOk(d[f.ids[Pos(i)] := Splice(d[f.ids[Pos(i)]], lo, s)], Overwritten(f, 512 * i + lo, s))
  {
    OverwriteStores(d, f.ids, f.content, i, lo, s);
    var d' := d[f.ids[Pos(i)] := Splice(d[f.ids[Pos(i)]], lo, s)];
    PosIsData(i);
    IndexedFrame(f.rec, d, d', f.ids);
  }

  // A change of d confined to the blocks ids.
  ghost predicate SameOutside(d: seq<Block>, d': seq<Block>, ids: seq<nat>) {
    && |d'| == |d|
    && forall b :: 0 <= b < |d| && b !in ids ==> d'[b] == d[b]
  }

  lemma SameOutsideReflexive(d: seq<Block>, ids: seq<nat>)
    ensures SameOutside(d, d, ids)
  {
  }

  lemma SameOutsideTransitive(d0: seq<Block>, d1: seq<Block>, d2: seq<Block>, ids: seq<nat>)
    requires SameOutside(d0, d1, ids) && SameOutside(d1, d2, ids)
    ensures SameOutside(d0, d2, ids)
  {
  }

  // What a read of len bytes at offset sees.
  function ReadSlice(c: seq<byte>, offset: nat, len: nat): (s: seq<byte>)
    ensures |s| <= len
  {
    var end := if offset + len < |c| then offset + len else |c|;
    if offset >= end then [] else c[offset..end]
  }

  lemma ReadSliceMeans(c: seq<byte>, offset: nat, len: nat)
    ensures var s := ReadSlice(c, offset, len);
            && |s| == (if offset >= |c| then 0 else if len <= |c| - offset then len else |c| - offset)
            && forall i :: 0 <= i < |s| ==> s[i] == c[offset + i]
  {
  }

  lemma ReadPiece(d: seq<Block>, f: File, i: nat, lo: nat, len: nat)
    requires FileOk(d, f)
    requires 0 < len && lo + len <= 512 && 512 * i + lo + len <= |f.content|
    ensures Pos(i) < |f.ids| && f.ids[Pos(i)] < |d|
    ensures d[f.ids[Pos(i)]][lo..lo + len] == f.content[512 * i + lo..512 * i + lo + len]
  {
    assert StoresChunk(d, f.ids, f.content, i);
  }
}
