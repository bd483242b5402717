/** Buffers in user space, page by page: the token, translate_va, translated_byte_buffer and the byte iterator. */
module UserBuffers {
  import opened Basics
  import opened Pages
  import opened Frames
  import opened PageTables

  const USIZE := 0x1_0000_0000_0000_0000
  const SV39 := 0x8000_0000_0000_0000

  /** token: the mode in the top bits, the root's page number below. */
  function Token(root: nat): (token: nat)
    requires root < PPN_LIMIT
    ensures token < USIZE
  {
    SV39 + root
  }

  /** from_token keeps the low 44 bits. */
  function FromToken(token: nat): nat { token % PPN_LIMIT }

  lemma TokenRoundTrip(root: nat)
    requires root < PPN_LIMIT
    ensures FromToken(Token(root)) == root && Token(root) / 0x1000_0000_0000_0000 == 8
  {
    assert SV39 == 0x8_0000 * PPN_LIMIT;
    assert (0x8_0000 * PPN_LIMIT + root) % PPN_LIMIT == root;
  }

  /** translate_va. The leaf entry is not checked for validity. */
  function TranslateVa(mem: seq<Frame>, root: nat, va: nat): Option<nat>
    requires root < |mem|
  {
    match FindPte(mem, root, Floor(va))
    case NoSlot => None
    case At(frame, index) =>
      if frame < |mem| then Some(PpnOf(mem[frame][index]) * PAGE_SIZE + PageOffset(va)) else None
  }

  /** In a sound tree a mapped address translates to its entry's frame, at the same offset. */
  lemma TranslateMapped(mem: seq<Frame>, t: Tables, va: nat)
    requires TreeOk(mem, t) && Key(Floor(va)) in TableOf(mem, t)
    ensures TranslateVa(mem, t.root, va) == Some(PpnOf(TableOf(mem, t)[Key(Floor(va))]) * PAGE_SIZE + PageOffset(va))
  {
    FindPteIsLeaf(mem, t, Floor(va));
    hide TreeOk, TableOf, IsValid, Pair, Index2, Key, Floor;
    MappedHasTables(mem, t, Floor(va));
    LeafIsMapped(mem, t, Floor(va));
    LowOnPath(mem, t, Pair(Floor(va)));
  }

  /**
   An address translates exactly when the tables above its page exist, mapped or not: an entry that
   was never set leads to the first page of memory.
   */
  lemma TranslateExactly(mem: seq<Frame>, t: Tables, va: nat)
    requires TreeOk(mem, t)
    ensures TranslateVa(mem, t.root, va).Some? <==> Pair(Floor(va)) in t.l2
    ensures Pair(Floor(va)) in t.l2 && mem[t.l2[Pair(Floor(va))]][Index2(Floor(va))] == 0 ==>
              TranslateVa(mem, t.root, va) == Some(PageOffset(va)) && Key(Floor(va)) !in TableOf(mem, t)
  {
    var vpn := Floor(va);
    FindPteIsLeaf(mem, t, vpn);
    if Pair(vpn) in t.l2 {
      LowOnPath(mem, t, Pair(vpn));
      LeafIsMapped(mem, t, vpn);
    }
  }

  /** With page 1 mapped and page 0 not, address 0 translates all the same. */
  method TranslatesUnmapped() returns (pt: PageTable)
    ensures pt.Valid() && Key(0) !in pt.Map() && TranslateVa(pt.m.mem, pt.root, 0).Some?
  {
    hide TreeOk, TableOf, TranslateVa, Machine.Valid, Machine.Free, Machine.Busy, Machine.Count, PageTable.Map, PageTable.Valid;
    var m := new Machine(seq(5, i => ZeroFrame()), 0, 5);
    var frame := m.FrameAlloc();
    pt := new PageTable(m, frame.value);
    var r := pt.MapPage(1, 0, R);
    pt.Facts();
    m.NoneLeft();
    MappedHasTables(m.mem, pt.t, 1);
    TranslateExactly(m.mem, pt.t, 0);
  }

  // ----- slices of frames

  // The bytes [lo, hi) of frame ppn.
  datatype Slice = Slice(ppn: nat, lo: nat, hi: nat)

  ghost predicate SliceOk(s: Slice) { s.lo < s.hi <= PAGE_SIZE }

  ghost predicate SlicesOk(v: seq<Slice>) {
    forall i :: 0 <= i < |v| ==> SliceOk(v[i])
  }

  // The physical addresses of the bytes, in order.
  ghost function AddressesOf(s: Slice): (r: seq<nat>)
    requires SliceOk(s)
    ensures |r| == s.hi - s.lo
  {
    seq(s.hi - s.lo, k requires 0 <= k => s.ppn * PAGE_SIZE + s.lo + k)
  }

  ghost function Addresses(v: seq<Slice>): seq<nat>
    requires SlicesOk(v)
  {
    if v == [] then [] else AddressesOf(v[0]) + Addresses(v[1..])
  }

  lemma {:induction false} AddressesOfSum(v: seq<Slice>, s: Slice)
    requires SlicesOk(v) && SliceOk(s)
    ensures SlicesOk(v + [s]) && Addresses(v + [s]) == Addresses(v) + AddressesOf(s)
  {
    if v == [] {
      assert [s][1..] == [];
    } else {
      assert (v + [s])[1..] == v[1..] + [s];
      AddressesOfSum(v[1..], s);
    }
  }

  // The first bytes of the buffer at ptr have the addresses a.
  ghost predicate Translates(mem: seq<Frame>, root: nat, ptr: nat, a: seq<nat>)
    requires root < |mem|
  {
    forall k :: 0 <= k < |a| ==> TranslateVa(mem, root, ptr + k) == Some(a[k])
  }

  // One page contributes consecutive addresses.
  lemma OnePage(mem: seq<Frame>, t: Tables, ptr: nat, start: nat, a: seq<nat>, s: Slice)
    requires TreeOk(mem, t) && t.root < |mem| && Key(Floor(start)) in TableOf(mem, t)
    requires SliceOk(s) && s.lo == PageOffset(start) && s.ppn == PpnOf(TableOf(mem, t)[Key(Floor(start))])
    requires start == ptr + |a| && Translates(mem, t.root, ptr, a)
    ensures Translates(mem, t.root, ptr, a + AddressesOf(s))
  {
    hide TreeOk, TableOf, FindPte, Key, PpnOf, TranslateVa;
    var b := a + AddressesOf(s);
    forall k | 0 <= k < |b| ensures TranslateVa(mem, t.root, ptr + k) == Some(b[k]) {
      if k < |a| {
        assert b[k] == a[k];
      } else {
        var j := k - |a|;
        SamePage(start, j);
        TranslateMapped(mem, t, start + j);
        assert b[k] == s.ppn * PAGE_SIZE + s.lo + j;
      }
    }
  }

  lemma SamePage(start: nat, j: nat)
    requires PageOffset(start) + j < PAGE_SIZE
    ensures Floor(start + j) == Floor(start) && PageOffset(start + j) == PageOffset(start) + j
  {
  }

  /**
   translated_byte_buffer over a mapped range below the last page: nonempty slices that list,
   byte by byte and in order, exactly the addresses translate_va gives.
   */
  method TranslatedByteBuffer(mem: seq<Frame>, token: nat, ptr: nat, len: nat, ghost t: Tables) returns (v: seq<Slice>)
    requires TreeOk(mem, t) && t.root < |mem| && t.root < PPN_LIMIT && token == Token(t.root)
    requires ptr + len <= USIZE - PAGE_SIZE
    requires forall va: nat :: ptr <= va < ptr + len ==> Key(Floor(va)) in TableOf(mem, t)
    ensures SlicesOk(v) && |Addresses(v)| == len
    ensures Translates(mem, t.root, ptr, Addresses(v))
  {
    hide TreeOk, TableOf, Key, PpnOf, FindPte, Translates, Token, FromToken, TranslateVa;
    var root := FromToken(token);
    TokenRoundTrip(t.root);
    var start, end := ptr, ptr + len;
    v := [];
    Nothing(mem, root, ptr);
    while start < end
      invariant ptr <= start <= end && SlicesOk(v)
      invariant |Addresses(v)| == start - ptr && Translates(mem, root, ptr, Addresses(v))
    {
      var vpn := Floor(start);
      var ppn := TranslatePpn(mem, root, vpn, t);
      var endVa := if (vpn + 1) * PAGE_SIZE < end then (vpn + 1) * PAGE_SIZE else end;
      PageEnd(start, end, endVa);
      var s := Slice(ppn, PageOffset(start), if PageOffset(endVa) == 0 then PAGE_SIZE else PageOffset(endVa));
      OnePage(mem, t, ptr, start, Addresses(v), s);
      AddressesOfSum(v, s);
      v := v + [s];
      start := endVa;
    }
  }

  /** translate(vpn).unwrap().ppn(). */
  method TranslatePpn(mem: seq<Frame>, root: nat, vpn: nat, ghost t: Tables) returns (ppn: nat)
    requires TreeOk(mem, t) && root == t.root < |mem| && Key(vpn) in TableOf(mem, t)
    ensures ppn == PpnOf(TableOf(mem, t)[Key(vpn)])
  {
    FindPteIsLeaf(mem, t, vpn);
    hide TreeOk, TableOf, IsValid, Pair, Index2, Key, FindPte;
    MappedHasTables(mem, t, vpn);
    LeafIsMapped(mem, t, vpn);
    LowOnPath(mem, t, Pair(vpn));
    var slot := FindPte(mem, root, vpn);
    ppn := PpnOf(mem[slot.frame][slot.index]);
  }

  lemma Nothing(mem: seq<Frame>, root: nat, ptr: nat)
    requires root < |mem|
    ensures Addresses([]) == [] && Translates(mem, root, ptr, [])
  {
  }

  // The end of the page or of the buffer, whichever comes first.
  lemma PageEnd(start: nat, end: nat, endVa: nat)
    requires start < end
    requires endVa == if (Floor(start) + 1) * PAGE_SIZE < end then (Floor(start) + 1) * PAGE_SIZE else end
    ensures start < endVa <= end
    ensures (if PageOffset(endVa) == 0 then PAGE_SIZE else PageOffset(endVa)) - PageOffset(start) == endVa - start
  {
    var p := Floor(start);
    assert p * PAGE_SIZE <= start < (p + 1) * PAGE_SIZE && PageOffset(start) == start - p * PAGE_SIZE;
    assert p * PAGE_SIZE < endVa <= (p + 1) * PAGE_SIZE;
    if endVa < (p + 1) * PAGE_SIZE {
      assert PageOffset(endVa) == endVa - p * PAGE_SIZE;
    } else {
      assert PageOffset(endVa) == 0;
    }
  }

  // ----- the iterator

  // The address at position idx of slice i, and what follows it.
  lemma NextAddress(v: seq<Slice>, i: nat, idx: nat)
    requires SlicesOk(v) && i < |v| && idx < v[i].hi - v[i].lo
    ensures var a := Addresses(v[i..]);
            && idx < |a| && a[idx..][0] == v[i].ppn * PAGE_SIZE + v[i].lo + idx
            && a[idx..][1..] == a[idx + 1..]
            && (idx + 1 == v[i].hi - v[i].lo ==> a[idx + 1..] == Addresses(v[i + 1..]) && Addresses(v[i + 1..])[0..] == a[idx + 1..])
  {
    assert v[i..][0] == v[i] && v[i..][1..] == v[i + 1..];
    var b := AddressesOf(v[i]);
    assert Addresses(v[i..]) == b + Addresses(v[i + 1..]);
    assert (b + Addresses(v[i + 1..]))[|b|..] == Addresses(v[i + 1..]);
  }

  /** UserBufferIterator. */
  class UserBufferIterator {
    const buffers: seq<Slice>
    var currentBuffer: nat
    var currentIdx: nat

    ghost predicate Valid()
      reads this
    {
      && SlicesOk(buffers) && currentBuffer <= |buffers|
      && (currentBuffer == |buffers| ==> currentIdx == 0)
      && (currentBuffer < |buffers| ==> currentIdx < buffers[currentBuffer].hi - buffers[currentBuffer].lo)
    }

    // The addresses still to come.
    ghost function Remaining(): seq<nat>
      requires Valid()
      reads this
    {
      if currentBuffer == |buffers| then [] else Addresses(buffers[currentBuffer..])[currentIdx..]
    }

    constructor (buffers: seq<Slice>)
      requires SlicesOk(buffers)
      ensures Valid() && Remaining() == Addresses(buffers)
    {
      this.buffers := buffers;
      currentBuffer := 0;
      currentIdx := 0;
      new;
      assert buffers[0..] == buffers;
    }

    /** next: the addresses come one by one, in order, and then no more. */
    method Next() returns (r: Option<nat>)
      requires Valid()
      modifies `currentBuffer, `currentIdx
      ensures Valid()
      ensures old(Remaining()) == [] ==> r == None && Remaining() == []
      ensures old(Remaining()) != [] ==> r == Some(old(Remaining())[0]) && Remaining() == old(Remaining())[1..]
    {
      if currentBuffer >= |buffers| {
        r := None;
      } else {
        var b := buffers[currentBuffer];
        NextAddress(buffers, currentBuffer, currentIdx);
        r := Some(b.ppn * PAGE_SIZE + b.lo + currentIdx);
        if currentIdx + 1 == b.hi - b.lo {
          currentIdx := 0;
          currentBuffer := currentBuffer + 1;
        } else {
          currentIdx := currentIdx + 1;
        }
      }
    }
  }

  /** Walking a translated buffer visits translate_va of each of its addresses, once and in order. */
  method Walk(mem: seq<Frame>, token: nat, ptr: nat, len: nat, ghost t: Tables) returns (visited: seq<nat>)
    requires TreeOk(mem, t) && t.root < |mem| && t.root < PPN_LIMIT && token == Token(t.root)
    requires ptr + len <= USIZE - PAGE_SIZE
    requires forall va: nat :: ptr <= va < ptr + len ==> Key(Floor(va)) in TableOf(mem, t)
    ensures |visited| == len
    ensures forall k :: 0 <= k < len ==> TranslateVa(mem, t.root, ptr + k) == Some(visited[k])
  {
    hide TreeOk, TableOf, Key, TranslateVa, Token, Addresses, UserBufferIterator.Valid, UserBufferIterator.Remaining;
    var v := TranslatedByteBuffer(mem, token, ptr, len, t);
    var it := new UserBufferIterator(v);
    visited := [];
    ghost var all := it.Remaining();
    var r := it.Next();
    while r.Some?
      invariant it.Valid() && (r.None? ==> all == visited)
      invariant r.Some? ==> visited + [r.value] + it.Remaining() == all
      decreases if r.Some? then 1 + |it.Remaining()| else 0
    {
      visited := visited + [r.value];
      r := it.Next();
    }
  }
}
