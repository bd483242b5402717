/** Addresses, page-table entries and the three-level tree that a page table keeps in physical memory. */
module Pages {
  import opened Basics

  const PAGE_SIZE := 4096
  const PPN_LIMIT := 0x1000_0000_0000   // 2^44
  const KEY_LIMIT := 0x800_0000         // 2^27
  const PAIR_LIMIT := 0x4_0000          // 2^18

  // ----- addresses

  function Floor(va: nat): nat { va / PAGE_SIZE }

  // The source computes va - 1 on an unsigned word, so zero has no ceiling.
  function Ceil(va: nat): nat
    requires 0 < va
  {
    (va - 1 + PAGE_SIZE) / PAGE_SIZE
  }

  function PageOffset(va: nat): nat { va % PAGE_SIZE }

  /** Page and offset make up the address. */
  lemma AddressSplits(va: nat)
    ensures va == Floor(va) * PAGE_SIZE + PageOffset(va) && PageOffset(va) < PAGE_SIZE
  {
  }

  /** The first page boundary at or after va. */
  lemma CeilMeans(va: nat)
    requires 0 < va
    ensures va <= Ceil(va) * PAGE_SIZE < va + PAGE_SIZE
  {
  }

  // The pages [lo, hi) are those that hold an address of [startVa, endVa).
  ghost predicate PagesOf(startVa: nat, endVa: nat, lo: nat, hi: nat) {
    && (forall va: nat :: startVa <= va < endVa ==> lo <= Floor(va) < hi)
    && (forall v: nat :: lo <= v < hi ==> HoldsSome(startVa, endVa, v))
  }

  ghost predicate HoldsSome(startVa: nat, endVa: nat, v: nat) {
    exists va: nat :: startVa <= va < endVa && Floor(va) == v
  }

  /** Rounding the ends of a range outwards gives exactly the pages it touches. */
  lemma RangePages(startVa: nat, endVa: nat)
    requires startVa < endVa
    ensures PagesOf(startVa, endVa, Floor(startVa), Ceil(endVa)) && Floor(startVa) < Ceil(endVa)
  {
    CeilMeans(endVa);
    forall v: nat | Floor(startVa) <= v < Ceil(endVa) ensures HoldsSome(startVa, endVa, v) {
      var va := if v * PAGE_SIZE < startVa then startVa else v * PAGE_SIZE;
      assert Floor(va) == v && va < endVa;
    }
  }

  // A virtual page number counts by its low 27 bits.
  function Key(vpn: nat): (k: nat)
    ensures k < KEY_LIMIT
  {
    vpn % KEY_LIMIT
  }

  function Index0(vpn: nat): (i: nat) ensures i < 512 { vpn / PAIR_LIMIT % 512 }
  function Index1(vpn: nat): (i: nat) ensures i < 512 { vpn / 512 % 512 }
  function Index2(vpn: nat): (i: nat) ensures i < 512 { vpn % 512 }

  // The first two indexes as one number.
  function Pair(vpn: nat): (j: nat)
    ensures j < PAIR_LIMIT
  {
    vpn / 512 % PAIR_LIMIT
  }

  lemma PairSplits(vpn: nat)
    ensures Pair(vpn) / 512 == Index0(vpn) && Pair(vpn) % 512 == Index1(vpn)
  {
    var a, b := vpn / PAIR_LIMIT, vpn / 512 % 512;
    assert vpn / 512 == 512 * a + b;
    var r := 512 * (a % 512) + b;
    assert vpn / 512 == PAIR_LIMIT * (a / 512) + r;
    assert 0 <= r < PAIR_LIMIT;
    assert Pair(vpn) == r;
  }

  // The three indexes determine the low 27 bits, and nothing else.
  lemma IndexesAreKey(u: nat, v: nat)
    ensures Key(u) == Key(v) <==> Pair(u) == Pair(v) && Index2(u) == Index2(v)
  {
    KeySplits(u);
    KeySplits(v);
  }

  lemma KeySplits(v: nat)
    ensures Key(v) == 512 * Pair(v) + Index2(v)
    ensures Pair(Key(v)) == Pair(v) && Index2(Key(v)) == Index2(v)
  {
    var a, b := v / KEY_LIMIT, v % KEY_LIMIT;
    assert v == 512 * (PAIR_LIMIT * a + b / 512) + b % 512;
    assert v / 512 == PAIR_LIMIT * a + b / 512;
  }

  /** The three indexes spell out the key, the first the most significant. */
  lemma IndexesSpellKey(v: nat)
    ensures Key(v) == (Index0(v) * 512 + Index1(v)) * 512 + Index2(v)
  {
    KeySplits(v);
    PairSplits(v);
    hide Key, Index0, Index1, Index2;
    assert Pair(v) == 512 * (Pair(v) / 512) + Pair(v) % 512;
  }

  /** VirtPageNum::indexes: nine bits at a time, from the last index to the first. */
  method Indexes(vpn: nat) returns (i0: nat, i1: nat, i2: nat)
    ensures i0 == Index0(vpn) && i1 == Index1(vpn) && i2 == Index2(vpn)
  {
    var rest, idx := vpn, [0, 0, 0];
    var i: nat := 3;
    while i > 0
      invariant i <= 3 && |idx| == 3
      invariant rest == if i == 3 then vpn else if i == 2 then vpn / 512 else if i == 1 then vpn / 512 / 512 else vpn / 512 / 512 / 512
      invariant i <= 2 ==> idx[2] == Index2(vpn)
      invariant i <= 1 ==> idx[1] == Index1(vpn)
      invariant i <= 0 ==> idx[0] == Index0(vpn)
      invariant forall j :: 0 <= j < 3 ==> 0 <= idx[j]
    {
      i := i - 1;
      idx := idx[i := rest % 512];
      rest := rest / 512;
    }
    i0, i1, i2 := idx[0], idx[1], idx[2];
  }

  // ----- page-table entries

  const V := 1
  const R := 2
  const W := 4
  const X := 8

  /** PageTableEntry::new. The page number and the flags occupy different bits, so or-ing adds. */
  function Pte(ppn: nat, flags: nat): nat
    requires flags < 256
  {
    ppn * 1024 + flags
  }

  function PpnOf(pte: nat): nat { pte / 1024 % PPN_LIMIT }
  function FlagsOf(pte: nat): nat { pte % 256 }
  predicate IsValid(pte: nat) { FlagsOf(pte) % 2 == 1 }

  lemma PteRoundTrip(ppn: nat, flags: nat)
    requires ppn < PPN_LIMIT && flags < 256
    ensures PpnOf(Pte(ppn, flags)) == ppn && FlagsOf(Pte(ppn, flags)) == flags
    ensures IsValid(Pte(ppn, flags)) <==> flags % 2 == 1
  {
    PpnBits(ppn, flags);
    FlagBits(ppn, flags);
  }

  /** Bit by bit: the flags in the low ten bits, the page number above. */
  lemma PteBits(ppn: nat, flags: nat, i: nat)
    requires flags < 256
    ensures BitOf(Pte(ppn, flags), i) <==> if i < 10 then BitOf(flags, i) else BitOf(ppn, i - 10)
  {
    assert Pow2(4) == 16 && Pow2(8) == 256 && Pow2(10) == 1024;
    JoinedBits(ppn, flags, 10, i);
  }

  lemma PpnBits(ppn: nat, flags: nat)
    requires ppn < PPN_LIMIT && flags < 1024
    ensures PpnOf(ppn * 1024 + flags) == ppn
  {
    assert (ppn * 1024 + flags) / 1024 == ppn;
  }

  lemma FlagBits(ppn: nat, flags: nat)
    requires flags < 256
    ensures FlagsOf(ppn * 1024 + flags) == flags
  {
    assert ppn * 1024 + flags == 256 * (4 * ppn) + flags;
  }

  // ----- physical memory as frames of 512 words

  type Frame = f: seq<nat> | |f| == 512 witness seq(512, _ => 0)

  function ZeroFrame(): (f: Frame)
    ensures forall i :: 0 <= i < 512 ==> f[i] == 0
  {
    seq(512, _ => 0)
  }

  // mem with word i of frame p replaced.
  function Poke(mem: seq<Frame>, p: nat, i: nat, w: nat): seq<Frame>
    requires p < |mem| && i < 512
  {
    mem[p := mem[p][i := w]]
  }

  // ----- the tree of tables

  // What a frame of an address space is for.
  datatype Role = Root | Mid(i: nat) | Low(j: nat) | Data(vpn: nat)

  // l1[i] is the table behind entry i of the root; l2[j] the one behind entry j % 512 of l1[j / 512].
  // role gives each frame of the space its one purpose.
  datatype Tables = Tables(root: nat, l1: map<nat, nat>, l2: map<nat, nat>, role: map<nat, Role>)

  ghost predicate Entry(mem: seq<Frame>, p: nat, i: nat, child: map<nat, nat>, key: nat)
    requires p < |mem| && i < 512
  {
    && (IsValid(mem[p][i]) <==> key in child)
    && (key in child ==> PpnOf(mem[p][i]) == child[key])
  }

  ghost predicate Levels(mem: seq<Frame>, t: Tables) {
    && t.root < |mem|
    && (forall i :: i in t.l1 ==> i < 512 && t.l1[i] < |mem|)
    && (forall j :: j in t.l2 ==> j < PAIR_LIMIT && j / 512 in t.l1 && t.l2[j] < |mem|)
  }

  ghost predicate Roles(t: Tables) {
    && t.root in t.role && t.role[t.root] == Root
    && (forall i :: i in t.l1 ==> t.l1[i] in t.role && t.role[t.l1[i]] == Mid(i))
    && (forall j :: j in t.l2 ==> t.l2[j] in t.role && t.role[t.l2[j]] == Low(j))
    && (forall p :: p in t.role ==>
          match t.role[p]
          case Root => p == t.root
          case Mid(i) => i in t.l1 && t.l1[i] == p
          case Low(j) => j in t.l2 && t.l2[j] == p
          case Data(_) => true)
  }

  // The tables in memory form exactly the tree t.
  ghost predicate TreeOk(mem: seq<Frame>, t: Tables) {
    && Levels(mem, t) && Roles(t)
    && (forall i :: 0 <= i < 512 ==> Entry(mem, t.root, i, t.l1, i))
    && (forall j :: 0 <= j < PAIR_LIMIT && j / 512 in t.l1 ==> Entry(mem, t.l1[j / 512], j % 512, t.l2, j))
  }

  // ----- the finite map the tree stands for

  ghost predicate Maps(mem: seq<Frame>, t: Tables, k: nat)
    requires Levels(mem, t)
  {
    Pair(k) in t.l2 && IsValid(mem[t.l2[Pair(k)]][Index2(k)])
  }

  ghost function TableOf(mem: seq<Frame>, t: Tables): (m: map<nat, nat>)
    requires Levels(mem, t)
    ensures forall k: nat :: k in m <==> k < KEY_LIMIT && Maps(mem, t, k)
    ensures forall k: nat :: k in m ==> Maps(mem, t, k) && m[k] == mem[t.l2[Pair(k)]][Index2(k)]
  {
    map k: nat | 0 <= k < KEY_LIMIT && Maps(mem, t, k) :: mem[t.l2[Pair(k)]][Index2(k)]
  }

  // Two trees with the same leaf entries stand for the same map.
  lemma SameTable(mem: seq<Frame>, t: Tables, mem': seq<Frame>, t': Tables)
    requires Levels(mem, t) && Levels(mem', t')
    requires forall k: nat :: k < KEY_LIMIT ==> (Maps(mem', t', k) <==> Maps(mem, t, k))
    requires forall k: nat :: k < KEY_LIMIT && Maps(mem, t, k) && Maps(mem', t', k) ==>
               mem'[t'.l2[Pair(k)]][Index2(k)] == mem[t.l2[Pair(k)]][Index2(k)]
    ensures TableOf(mem', t') == TableOf(mem, t)
  {
    hide Maps;
  }

  // The walk of find_pte: the frame and index of the leaf entry, when both tables above it exist.
  datatype Slot = NoSlot | At(frame: nat, index: nat)

  function FindPte(mem: seq<Frame>, root: nat, vpn: nat): Slot
    requires root < |mem|
  {
    var e0 := mem[root][Index0(vpn)];
    if !IsValid(e0) || PpnOf(e0) >= |mem| then NoSlot
    else
      var e1 := mem[PpnOf(e0)][Index1(vpn)];
      if !IsValid(e1) then NoSlot else At(PpnOf(e1), Index2(vpn))
  }

  lemma FindPteIsLeaf(mem: seq<Frame>, t: Tables, vpn: nat)
    requires TreeOk(mem, t)
    ensures FindPte(mem, t.root, vpn) ==
            if Pair(vpn) in t.l2 then At(t.l2[Pair(vpn)], Index2(vpn)) else NoSlot
  {
    PairSplits(vpn);
    assert Entry(mem, t.root, Index0(vpn), t.l1, Index0(vpn));
    assert Index0(vpn) in t.l1 ==> Entry(mem, t.l1[Index0(vpn)], Index1(vpn), t.l2, Pair(vpn));
  }

  // ----- how writes change the tree and the map

  // Only the space's own frames matter.
  ghost predicate SameOn(mem: seq<Frame>, mem': seq<Frame>, frames: set<nat>) {
    forall p :: p in frames && p < |mem| ==> p < |mem'| && mem'[p] == mem[p]
  }

  ghost function TableFrames(t: Tables): set<nat> {
    set p | p in t.role && !t.role[p].Data?
  }

  lemma TreeFrame(mem: seq<Frame>, mem': seq<Frame>, t: Tables)
    requires TreeOk(mem, t) && SameOn(mem, mem', TableFrames(t))
    ensures TreeOk(mem', t) && TableOf(mem', t) == TableOf(mem, t)
  {
    hide IsValid, PpnOf, Pair, Index2, TableOf;
    assert t.root in TableFrames(t) && forall i :: i in t.l1 ==> t.l1[i] in TableFrames(t);
    assert forall j :: j in t.l2 ==> t.l2[j] in TableFrames(t);
    forall i | 0 <= i < 512 ensures Entry(mem', t.root, i, t.l1, i) {
      assert Entry(mem, t.root, i, t.l1, i);
    }
    forall j | 0 <= j < PAIR_LIMIT && j / 512 in t.l1 ensures Entry(mem', t.l1[j / 512], j % 512, t.l2, j) {
      assert Entry(mem, t.l1[j / 512], j % 512, t.l2, j);
    }
    SameTable(mem, t, mem', t);
  }

  // A new table below the root, in a zeroed frame that the space does not own yet.
  ghost function WithMid(t: Tables, i: nat, p: nat): Tables {
    t.(l1 := t.l1[i := p], role := t.role[p := Mid(i)])
  }

  lemma AddMid(mem: seq<Frame>, t: Tables, i: nat, p: nat)
    requires TreeOk(mem, t) && i < 512 && i !in t.l1
    requires p < |mem| && p < PPN_LIMIT && p !in t.role && mem[p] == ZeroFrame()
    ensures TreeOk(Poke(mem, t.root, i, Pte(p, V)), WithMid(t, i, p))
    ensures TableOf(Poke(mem, t.root, i, Pte(p, V)), WithMid(t, i, p)) == TableOf(mem, t)
  {
    hide Pte, PpnOf, Pair, Index2, TableOf;
    var mem', t' := Poke(mem, t.root, i, Pte(p, V)), WithMid(t, i, p);
    PteRoundTrip(p, V);
    assert mem'[p] == ZeroFrame();
    forall x | 0 <= x < 512 ensures Entry(mem', t'.root, x, t'.l1, x) {
      assert Entry(mem, t.root, x, t.l1, x);
    }
    forall j | 0 <= j < PAIR_LIMIT && j / 512 in t'.l1 ensures Entry(mem', t'.l1[j / 512], j % 512, t'.l2, j) {
      if j / 512 != i { assert Entry(mem, t.l1[j / 512], j % 512, t.l2, j); }
    }
    hide IsValid;
    SameTable(mem, t, mem', t');
  }

  ghost function WithLow(t: Tables, j: nat, p: nat): Tables {
    t.(l2 := t.l2[j := p], role := t.role[p := Low(j)])
  }

  lemma AddLow(mem: seq<Frame>, t: Tables, j: nat, p: nat)
    requires TreeOk(mem, t) && j < PAIR_LIMIT && j / 512 in t.l1 && j !in t.l2
    requires p < |mem| && p < PPN_LIMIT && p !in t.role && mem[p] == ZeroFrame()
    ensures TreeOk(Poke(mem, t.l1[j / 512], j % 512, Pte(p, V)), WithLow(t, j, p))
    ensures TableOf(Poke(mem, t.l1[j / 512], j % 512, Pte(p, V)), WithLow(t, j, p)) == TableOf(mem, t)
  {
    AddLowTree(mem, t, j, p);
    assert !IsValid(0);
    hide Pte, Pair, Index2, TableOf, IsValid, Entry;
    SameTable(mem, t, Poke(mem, t.l1[j / 512], j % 512, Pte(p, V)), WithLow(t, j, p));
  }

  lemma AddLowTree(mem: seq<Frame>, t: Tables, j: nat, p: nat)
    requires TreeOk(mem, t) && j < PAIR_LIMIT && j / 512 in t.l1 && j !in t.l2
    requires p < |mem| && p < PPN_LIMIT && p !in t.role && mem[p] == ZeroFrame()
    ensures TreeOk(Poke(mem, t.l1[j / 512], j % 512, Pte(p, V)), WithLow(t, j, p))
  {
    hide Pte, PpnOf, Pair, Index2, TableOf;
    var mem', t' := Poke(mem, t.l1[j / 512], j % 512, Pte(p, V)), WithLow(t, j, p);
    PteRoundTrip(p, V);
    assert mem'[p] == ZeroFrame();
    forall x | 0 <= x < 512 ensures Entry(mem', t'.root, x, t'.l1, x) {
      assert Entry(mem, t.root, x, t.l1, x);
    }
    forall y | 0 <= y < PAIR_LIMIT && y / 512 in t'.l1 ensures Entry(mem', t'.l1[y / 512], y % 512, t'.l2, y) {
      assert Entry(mem, t.l1[y / 512], y % 512, t.l2, y);
    }
  }

  // Writing a leaf entry keeps the tree.
  lemma SetLeafTree(mem: seq<Frame>, t: Tables, j: nat, i: nat, w: nat)
    requires TreeOk(mem, t) && j in t.l2 && i < 512
    ensures TreeOk(Poke(mem, t.l2[j], i, w), t)
  {
    hide IsValid, PpnOf;
    var mem' := Poke(mem, t.l2[j], i, w);
    forall x | 0 <= x < 512 ensures Entry(mem', t.root, x, t.l1, x) {
      assert Entry(mem, t.root, x, t.l1, x);
    }
    forall y | 0 <= y < PAIR_LIMIT && y / 512 in t.l1 ensures Entry(mem', t.l1[y / 512], y % 512, t.l2, y) {
      assert Entry(mem, t.l1[y / 512], y % 512, t.l2, y);
    }
  }

  // The map after a write of pte for vpn.
  ghost function Updated(m: map<nat, nat>, vpn: nat, pte: nat): map<nat, nat> {
    if IsValid(pte) then m[Key(vpn) := pte] else m - {Key(vpn)}
  }

  // Writing a leaf entry changes the map at one key only.
  lemma SetLeaf(mem: seq<Frame>, t: Tables, vpn: nat, pte: nat)
    requires TreeOk(mem, t) && Pair(vpn) in t.l2
    ensures var mem' := Poke(mem, t.l2[Pair(vpn)], Index2(vpn), pte);
            TreeOk(mem', t) && TableOf(mem', t) == Updated(TableOf(mem, t), vpn, pte)
  {
    var mem' := Poke(mem, t.l2[Pair(vpn)], Index2(vpn), pte);
    SetLeafTree(mem, t, Pair(vpn), Index2(vpn), pte);
    KeySplits(vpn);
    hide Pair, Index2, Key, IsValid, TableOf;
    forall k: nat | k < KEY_LIMIT && Pair(k) in t.l2
      ensures mem'[t.l2[Pair(k)]][Index2(k)] == if k == Key(vpn) then pte else mem[t.l2[Pair(k)]][Index2(k)]
    {
      IndexesAreKey(k, vpn);
      KeyOfKey(k);
    }
    assert Levels(mem', t) && Levels(mem, t);
    assert Pair(Key(vpn)) == Pair(vpn);
    hide Poke, TreeOk, Levels, Roles;
    LeafUpdated(mem, mem', t, vpn, pte);
  }

  lemma LeafUpdated(mem: seq<Frame>, mem': seq<Frame>, t: Tables, vpn: nat, pte: nat)
    requires Levels(mem, t) && Levels(mem', t) && Pair(Key(vpn)) in t.l2
    requires forall k: nat :: k < KEY_LIMIT && Pair(k) in t.l2 ==>
               mem'[t.l2[Pair(k)]][Index2(k)] == if k == Key(vpn) then pte else mem[t.l2[Pair(k)]][Index2(k)]
    ensures TableOf(mem', t) == Updated(TableOf(mem, t), vpn, pte)
  {
    hide Pair, Index2, Key, IsValid, TableOf;
    forall k: nat | k < KEY_LIMIT
      ensures Maps(mem', t, k) <==> if k == Key(vpn) then IsValid(pte) else Maps(mem, t, k)
    {
    }
    hide Maps;
    assert TableOf(mem', t) == Updated(TableOf(mem, t), vpn, pte);
  }

  lemma KeyOfKey(k: nat)
    requires k < KEY_LIMIT
    ensures Key(k) == k
  {
  }
}
