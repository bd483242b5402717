/** Directory files: 32-byte entries, lookup by name and link counting. */
module Directories {
  import opened Basics
  import opened Bytes

  const DIRENT_SZ := 32
  const NAME_FIELD := 28
  const NAME_LENGTH_LIMIT := 27

  type Name = seq<byte>

  datatype Dirent = Dirent(name: Name, ino: nat)

  // What unlink leaves in place of an entry.
  const BLANK := Dirent([], 0)

  predicate Storable(e: Dirent) {
    && |e.name| <= NAME_LENGTH_LIMIT
    && 0 !in e.name
    && e.ino < U32_LIMIT
  }

  /** DirEntry::new(name, ino).as_bytes(). */
  function EncodeDirent(e: Dirent): (b: seq<byte>)
    requires Storable(e)
    ensures |b| == DIRENT_SZ
  {
    e.name + Zeros(NAME_FIELD - |e.name|) + LeBytes(e.ino, 4)
  }

  // The first zero byte of s at or after i; |s| when there is none.
  function FirstZero(s: seq<byte>, i: nat): (z: nat)
    requires i <= |s|
    ensures i <= z <= |s|
    ensures forall j :: i <= j < z ==> s[j] != 0
    ensures z < |s| ==> s[z] == 0
    decreases |s| - i
  {
    if i == |s| || s[i] == 0 then i else FirstZero(s, i + 1)
  }

  /** DirEntry::name and DirEntry::inode_number of 32 raw bytes. */
  function DecodeDirent(b: seq<byte>): Dirent
    requires |b| == DIRENT_SZ
  {
    Dirent(b[..FirstZero(b[..NAME_FIELD], 0)], LeNat(b[NAME_FIELD..DIRENT_SZ]))
  }

  lemma DecodeOfEncodeDirent(e: Dirent)
    requires Storable(e)
    ensures DecodeDirent(EncodeDirent(e)) == e
  {
    var b := EncodeDirent(e);
    assert b[NAME_FIELD..DIRENT_SZ] == LeBytes(e.ino, 4);
    Pow256Values();
    LeNatOfBytes(e.ino, 4);
    var z := FirstZero(b[..NAME_FIELD], 0);
    assert b[|e.name|] == 0;
    assert forall j :: 0 <= j < |e.name| ==> b[j] == e.name[j];
    assert z == |e.name|;
    assert b[..z] == e.name;
  }

  lemma DecodeOfZeros()
    ensures DecodeDirent(Zeros(DIRENT_SZ)) == BLANK
  {
    assert Zeros(DIRENT_SZ) == EncodeDirent(BLANK) by {
      assert LeBytes(0, 4) == Zeros(4) by {
        assert LeBytes(0, 2) == Zeros(2);
      }
    }
    DecodeOfEncodeDirent(BLANK);
  }

  // ----- the entries of a directory file

  function RawEntry(c: seq<byte>, i: nat): (b: seq<byte>)
    requires DIRENT_SZ * (i + 1) <= |c|
    ensures |b| == DIRENT_SZ
  {
    c[DIRENT_SZ * i..DIRENT_SZ * i + DIRENT_SZ]
  }

  function Entries(c: seq<byte>): (es: seq<Dirent>)
    ensures |es| == |c| / DIRENT_SZ
  {
    seq(|c| / DIRENT_SZ, i requires 0 <= i < |c| / DIRENT_SZ => DecodeDirent(RawEntry(c, i)))
  }

  lemma EntriesOfAppended(c: seq<byte>, e: Dirent)
    requires |c| % DIRENT_SZ == 0 && Storable(e)
    ensures Entries(c + EncodeDirent(e)) == Entries(c) + [e]
  {
    hide EncodeDirent, DecodeDirent;
    var c' := c + EncodeDirent(e);
    var n := |c| / DIRENT_SZ;
    assert RawEntry(c', n) == EncodeDirent(e);
    DecodeOfEncodeDirent(e);
    forall i | 0 <= i < n ensures RawEntry(c', i) == RawEntry(c, i) {
    }
  }

  lemma EntriesOfBlanked(c: seq<byte>, i: nat)
    requires |c| % DIRENT_SZ == 0 && i < |c| / DIRENT_SZ
    ensures Entries(Splice(c, DIRENT_SZ * i, Zeros(DIRENT_SZ))) == Entries(c)[i := BLANK]
  {
    hide DecodeDirent;
    var c' := Splice(c, DIRENT_SZ * i, Zeros(DIRENT_SZ));
    assert RawEntry(c', i) == Zeros(DIRENT_SZ);
    DecodeOfZeros();
    forall j | 0 <= j < |c| / DIRENT_SZ && j != i ensures RawEntry(c', j) == RawEntry(c, j) {
    }
  }

  // ----- lookup

  // The index of the first entry with this name at or after i; |es| when there is none.
  function FindFrom(es: seq<Dirent>, name: Name, i: nat): (r: nat)
    requires i <= |es|
    ensures i <= r <= |es|
    ensures forall j :: i <= j < r ==> es[j].name != name
    ensures r < |es| ==> es[r].name == name
    decreases |es| - i
  {
    if i == |es| || es[i].name == name then i else FindFrom(es, name, i + 1)
  }

  // What find_inode_id returns.
  function Lookup(es: seq<Dirent>, name: Name): Option<nat> {
    var i := FindFrom(es, name, 0);
    if i < |es| then Some(es[i].ino) else None
  }

  // What get_nlink counts: entries whose name, looked up again, leads to inode k.
  function Links(es: seq<Dirent>, k: nat, n: nat): nat
    requires n <= |es|
  {
    if n == 0 then 0
    else Links(es, k, n - 1) + (if Lookup(es, es[n - 1].name) == Some(k) then 1 else 0)
  }

  function Nlink(es: seq<Dirent>, k: nat): nat {
    Links(es, k, |es|)
  }
}
