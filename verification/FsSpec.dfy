/** The file system as plain byte sequences: inode k is the sequence cs[k]; cs[0] is the root directory. */
module FsSpec {
  import opened Basics
  import opened Bytes
  import opened Layout
  import opened Files
  import opened Directories

  type Contents = seq<seq<byte>>

  // A byte sequence zero-extended to at least n bytes.
  function Extended(c: seq<byte>, n: nat): (e: seq<byte>)
    ensures |e| == if n <= |c| then |c| else n
    ensures n <= |c| ==> e == c
  {
    if n <= |c| then c else c + Zeros(n - |c|)
  }

  // The bytes after writing buf at offset.
  function Written(c: seq<byte>, offset: nat, buf: seq<byte>): (w: seq<byte>)
    ensures |w| == if offset + |buf| <= |c| then |c| else offset + |buf|
  {
    Splice(Extended(c, offset + |buf|), offset, buf)
  }

  // A write to a file of n bytes, once it has grown, begins in a block that the file has.
  // Only an empty write at a block boundary at or past the end does not.
  predicate Reaches(n: nat, offset: nat, buf: seq<byte>) {
    0 < |buf| || offset < n || offset % BLOCK_SZ != 0
  }

  // A directory with the first entry of this name blanked.
  function Blanked(c: seq<byte>, name: Name): (b: seq<byte>)
    ensures |b| == |c|
  {
    var i := FindFrom(Entries(c), name, 0);
    if i < |Entries(c)| then Splice(c, DIRENT_SZ * i, Zeros(DIRENT_SZ)) else c
  }

  // unlink first clears the inode when this is its only link, then blanks the entry.
  function Unlinked(cs: Contents, dir: nat, name: Name): (r: Contents)
    requires dir < |cs|
    ensures |r| == |cs|
  {
    var cs1 := Released(cs, dir, name);
    cs1[dir := Blanked(cs1[dir], name)]
  }

  function Released(cs: Contents, dir: nat, name: Name): (r: Contents)
    requires dir < |cs|
    ensures |r| == |cs|
  {
    var es := Entries(cs[dir]);
    match Lookup(es, name)
    case None => cs
    case Some(k) => if k < |cs| && Nlink(es, k) == 1 then cs[k := []] else cs
  }

  function Linked(cs: Contents, dir: nat, e: Dirent): (r: Contents)
    requires dir < |cs| && Storable(e)
    ensures |r| == |cs|
  {
    cs[dir := cs[dir] + EncodeDirent(e)]
  }

  function Created(cs: Contents, dir: nat, name: Name): Contents
    requires dir < |cs| && Storable(Dirent(name, |cs|))
  {
    if Lookup(Entries(cs[dir]), name).Some? then cs
    else Linked(cs + [[]], dir, Dirent(name, |cs|))
  }

  // ----- operations and runs

  datatype Op =
    | Write(k: nat, offset: nat, buf: seq<byte>)
    | Clear(k: nat)
    | Create(name: Name)
    | Link(k: nat, name: Name)
    | Unlink(name: Name)
    | Read(k: nat, offset: nat, len: nat)
    | Find(name: Name)
    | GetNlink(k: nat)

  // What the caller of an operation gets back: a number, an inode or none, bytes, or nothing.
  datatype Answer = Done | Number(n: nat) | Node(ino: Option<nat>) | Data(bytes: seq<byte>)

  predicate ValidName(name: Name) {
    0 < |name| <= NAME_LENGTH_LIMIT && 0 !in name
  }

  ghost predicate DirOk(c: seq<byte>) {
    && |c| % DIRENT_SZ == 0
    && forall i :: 0 <= i < |Entries(c)| ==> Storable(Entries(c)[i])
  }

  // A directory of n inodes: blanks, and distinct valid names of inodes other than the root.
  ghost predicate Listed(es: seq<Dirent>, n: nat) {
    && (forall i :: 0 <= i < |es| ==> es[i] == BLANK || (ValidName(es[i].name) && 0 < es[i].ino < n))
    && (forall i, j :: 0 <= i < j < |es| && es[i].name == es[j].name ==> es[i] == BLANK)
  }

  ghost predicate SpecInv(cs: Contents) {
    0 < |cs| < U32_LIMIT && DirOk(cs[0]) && Listed(Entries(cs[0]), |cs|)
  }

  // The op as a caller may issue it; what it does is Step.
  ghost predicate Callable(cs: Contents, op: Op) {
    match op
    case Write(k, offset, buf) => 0 < k < |cs| && Reaches(|cs[k]|, offset, buf) && offset + |buf| <= MAX_SIZE
    case Clear(k) => 0 < k < |cs|
    case Create(name) => ValidName(name) && |cs| + 1 < U32_LIMIT
    case Link(k, name) => 0 < k < |cs| && ValidName(name) && Lookup(Entries(cs[0]), name).None?
    case Read(k, _, _) => k < |cs|
    case GetNlink(k) => k < |cs|
    case _ => true
  }

  // What an operation does. The directory stays well formed under every callable operation.
  function Step(cs: Contents, op: Op): (r: Contents)
    requires SpecInv(cs) && Callable(cs, op)
    ensures SpecInv(r) && |cs| <= |r|
  {
    match op
    case Write(k, offset, buf) => cs[k := Written(cs[k], offset, buf)]
    case Clear(k) => cs[k := []]
    case Create(name) => CreateKeepsInv(cs, name); Created(cs, 0, name)
    case Link(k, name) => AppendKeepsInv(cs, Dirent(name, k)); Linked(cs, 0, Dirent(name, k))
    case Unlink(name) => UnlinkKeepsInv(cs, name); Unlinked(cs, 0, name)
    case _ => cs
  }

  function AnswerOf(cs: Contents, op: Op): Answer
    requires 0 < |cs| && (op.Read? ==> op.k < |cs|)
  {
    match op
    case Write(_, _, buf) => Number(|buf|)
    case Clear(_) => Done
    case Create(name) => Node(if Lookup(Entries(cs[0]), name).Some? then None else Some(|cs|))
    case Link(_, _) => Number(0)
    case Unlink(_) => Number(0)
    case Read(k, offset, len) => Data(ReadSlice(cs[k], offset, len))
    case Find(name) => Node(Lookup(Entries(cs[0]), name))
    case GetNlink(k) => Number(Nlink(Entries(cs[0]), k))
  }

  // The empty file system that create makes: a root directory with no entries.
  const FRESH: Contents := [[]]

  lemma FreshSpec()
    ensures SpecInv(FRESH)
  {
    EmptyListed(1);
  }

  lemma ListedGrows(es: seq<Dirent>, n: nat, m: nat)
    requires Listed(es, n) && n <= m
    ensures Listed(es, m)
  {
  }

  lemma AppendKeepsInv(cs: Contents, e: Dirent)
    requires SpecInv(cs) && Storable(e)
    requires ValidName(e.name) && 0 < e.ino < |cs| && Lookup(Entries(cs[0]), e.name).None?
    ensures SpecInv(Linked(cs, 0, e))
    ensures Entries(Linked(cs, 0, e)[0]) == Entries(cs[0]) + [e]
  {
    hide EncodeDirent, Entries;
    EntriesOfAppended(cs[0], e);
  }

  lemma BlankedEntries(c: seq<byte>, name: Name)
    requires DirOk(c)
    ensures var i := FindFrom(Entries(c), name, 0);
            Entries(Blanked(c, name)) == if i < |Entries(c)| then Entries(c)[i := BLANK] else Entries(c)
    ensures DirOk(Blanked(c, name))
  {
    hide Entries;
    var i := FindFrom(Entries(c), name, 0);
    if i < |Entries(c)| { EntriesOfBlanked(c, i); }
  }

  lemma UnlinkKeepsInv(cs: Contents, name: Name)
    requires SpecInv(cs)
    ensures SpecInv(Unlinked(cs, 0, name))
    ensures Entries(Unlinked(cs, 0, name)[0]) ==
            var es := Entries(Released(cs, 0, name)[0]);
            var i := FindFrom(es, name, 0);
            if i < |es| then es[i := BLANK] else es
  {
    hide Entries, Blanked, DirOk, Nlink;
    var cs1 := Released(cs, 0, name);
    assert DirOk(cs1[0]) && Listed(Entries(cs1[0]), |cs|) by { EmptyListed(|cs|); }
    BlankedEntries(cs1[0], name);
  }

  lemma EmptyListed(n: nat)
    ensures DirOk([]) && Listed(Entries([]), n)
  {
  }

  lemma CreateKeepsInv(cs: Contents, name: Name)
    requires SpecInv(cs) && ValidName(name) && |cs| + 1 < U32_LIMIT
    ensures SpecInv(Created(cs, 0, name))
    ensures Lookup(Entries(cs[0]), name).None? ==>
              Entries(Created(cs, 0, name)[0]) == Entries(cs[0]) + [Dirent(name, |cs|)]
  {
    hide EncodeDirent, Entries, DirOk;
    if Lookup(Entries(cs[0]), name).None? {
      ListedGrows(Entries(cs[0]), |cs|, |cs| + 1);
      AppendKeepsInv(cs + [[]], Dirent(name, |cs|));
    }
  }
}
