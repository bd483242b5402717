/** Disk inodes as bytes: four 128-byte records to a block. */
module InodeTable {
  import opened Bytes
  import opened Layout

  const INODES_PER_BLOCK := 4
  const INODE_SZ := 128

  // Word j of the record at slot s.
  function InodeWord(b: Block, s: nat, j: nat): nat
    requires s < INODES_PER_BLOCK && j < 32
  {
    Word(b, 32 * s + j)
  }

  /** The record at slot s of an inode block. */
  function DecodeInode(b: Block, s: nat): InodeRec
    requires s < INODES_PER_BLOCK
  {
    InodeRec(
      InodeWord(b, s, 0),
      seq<nat>(28, j requires 0 <= j < 28 => InodeWord(b, s, 1 + j)),
      InodeWord(b, s, 29),
      InodeWord(b, s, 30),
      if b[128 * s + 124] == 1 then DirectoryKind else FileKind)
  }

  function InodeWords(n: InodeRec): (ws: seq<nat>)
    requires n.WellFormed()
    ensures |ws| == 31 && forall j :: 0 <= j < 31 ==> ws[j] < U32_LIMIT
  {
    [n.size] + n.direct + [n.indirect1, n.indirect2]
  }

  function KindByte(k: Kind): byte {
    if k.DirectoryKind? then 1 else 0
  }

  /** The block after the record at slot s has been overwritten. */
  function EncodeInode(b: Block, s: nat, n: InodeRec): Block
    requires s < INODES_PER_BLOCK && n.WellFormed()
  {
    Splice(PutWords(b, 32 * s, InodeWords(n)), 128 * s + 124, [KindByte(n.kind)])
  }

  function PutWords(b: Block, at: nat, ws: seq<nat>): Block
    requires at + |ws| <= 128
    decreases |ws|
  {
    if ws == [] then b else PutWords(SetWord(b, at, ws[0]), at + 1, ws[1..])
  }

  lemma {:induction false} WordOfPutWords(b: Block, at: nat, ws: seq<nat>, j: nat)
    requires at + |ws| <= 128 && j < 128
    requires forall i :: 0 <= i < |ws| ==> ws[i] < U32_LIMIT
    ensures Word(PutWords(b, at, ws), j) == if at <= j < at + |ws| then ws[j - at] else Word(b, j)
    decreases |ws|
  {
    hide Word, SetWord;
    if ws != [] {
      WordOfPutWords(SetWord(b, at, ws[0]), at + 1, ws[1..], j);
      WordOfSetWord(b, at, ws[0], j);
    }
  }

  lemma {:induction false} ByteOfPutWords(b: Block, at: nat, ws: seq<nat>, k: nat)
    requires at + |ws| <= 128 && k < 512
    requires k < 4 * at || 4 * (at + |ws|) <= k
    ensures PutWords(b, at, ws)[k] == b[k]
    decreases |ws|
  {
    if ws != [] {
      ByteOfPutWords(SetWord(b, at, ws[0]), at + 1, ws[1..], k);
    }
  }

  // Setting the kind byte, the last word of a record, leaves the other words alone.
  lemma WordOfKindByte(b: Block, s: nat, v: byte, j: nat)
    requires s < INODES_PER_BLOCK && j < 128 && j != 32 * s + 31
    ensures Word(Splice(b, 128 * s + 124, [v]), j) == Word(b, j)
  {
    assert Splice(b, 128 * s + 124, [v])[4 * j..4 * j + 4] == b[4 * j..4 * j + 4];
  }

  lemma DecodeOfEncode(b: Block, s: nat, n: InodeRec)
    requires s < INODES_PER_BLOCK && n.WellFormed()
    ensures DecodeInode(EncodeInode(b, s, n), s) == n
  {
    hide Word, PutWords;
    var e := EncodeInode(b, s, n);
    forall j | 0 <= j < 31 ensures InodeWord(e, s, j) == InodeWords(n)[j] {
      WordOfKindByte(PutWords(b, 32 * s, InodeWords(n)), s, KindByte(n.kind), 32 * s + j);
      WordOfPutWords(b, 32 * s, InodeWords(n), 32 * s + j);
    }
    assert DecodeInode(e, s).direct == n.direct;
  }

  lemma DecodeOfOtherSlot(b: Block, s: nat, n: InodeRec, t: nat)
    requires s < INODES_PER_BLOCK && t < INODES_PER_BLOCK && s != t && n.WellFormed()
    ensures DecodeInode(EncodeInode(b, s, n), t) == DecodeInode(b, t)
  {
    hide Word, PutWords;
    var e := EncodeInode(b, s, n);
    forall j | 0 <= j < 31 ensures InodeWord(e, t, j) == InodeWord(b, t, j) {
      WordOfKindByte(PutWords(b, 32 * s, InodeWords(n)), s, KindByte(n.kind), 32 * t + j);
      WordOfPutWords(b, 32 * s, InodeWords(n), 32 * t + j);
    }
    ByteOfPutWords(b, 32 * s, InodeWords(n), 128 * t + 124);
    assert DecodeInode(e, t).direct == DecodeInode(b, t).direct;
  }
}
