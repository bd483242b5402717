/** The Sv39 page table: its in-place operations, proved against the finite map it stands for. */
module PageTables {
  import opened Basics
  import opened Pages
  import opened Frames

  // t' is t with tables added in frames taken from free; nothing changed its purpose.
  ghost predicate Extends(t: Tables, t': Tables, free: set<nat>) {
    && t'.root == t.root
    && (forall p :: p in t.role ==> p in t'.role && t'.role[p] == t.role[p])
    && (forall p :: p in t'.role && p !in t.role ==> p in free && !t'.role[p].Data?)
  }

  // The allocator after the frames of t' that t lacks were taken.
  ghost predicate Took(free: set<nat>, busy: set<nat>, free': set<nat>, busy': set<nat>, taken: set<nat>) {
    taken <= free && free' == free - taken && busy' == busy + taken
  }

  lemma ExtendsTransitive(t0: Tables, t1: Tables, t2: Tables, free: set<nat>)
    requires Extends(t0, t1, free) && Extends(t1, t2, free - (t1.role.Keys - t0.role.Keys))
    ensures Extends(t0, t2, free)
    ensures t2.role.Keys - t0.role.Keys == (t1.role.Keys - t0.role.Keys) + (t2.role.Keys - t1.role.Keys)
  {
  }

  class PageTable {
    const m: Machine
    var root: nat
    var frames: seq<nat>
    ghost var t: Tables

    // frames holds one tracker for each table of the tree.
    ghost predicate Trackers()
      reads this
    {
      && (forall p :: p in frames <==> p in TableFrames(t))
      && (forall i, j :: 0 <= i < j < |frames| ==> frames[i] != frames[j])
    }

    ghost predicate Valid()
      reads this, m
    {
      && m.Valid() && root == t.root
      && TreeOk(m.mem, t) && Trackers()
      && t.role.Keys <= m.Busy()
    }

    ghost function Map(): map<nat, nat>
      requires Valid()
      reads this, m
    {
      TableOf(m.mem, t)
    }

    /** PageTable::new in the frame p that frame_alloc returned. */
    constructor (m: Machine, p: nat)
      requires m.Valid() && p in m.Busy() && p < |m.mem| && m.mem[p] == ZeroFrame()
      ensures this.m == m && Valid() && Map() == map[] && t == Tables(p, map[], map[], map[p := Root])
    {
      this.m := m;
      root := p;
      frames := [p];
      t := Tables(p, map[], map[], map[p := Root]);
    }

    lemma Facts()
      requires Valid()
      ensures m.Valid() && root == t.root && TreeOk(m.mem, t) && Trackers() && t.role.Keys <= m.Busy()
      ensures Map() == TableOf(m.mem, t)
      ensures m.Free() !! m.Busy() && forall p :: p in m.Free() + m.Busy() ==> p < |m.mem| <= PPN_LIMIT
    {
      m.FreeAndBusy();
    }

    // The machine changed, but not in the frames of the tables.
    lemma StaysValid(mem0: seq<Frame>)
      requires m.Valid() && root == t.root && TreeOk(mem0, t) && Trackers() && t.role.Keys <= m.Busy()
      requires SameOn(mem0, m.mem, TableFrames(t))
      ensures Valid() && Map() == TableOf(mem0, t)
    {
      TreeFrame(mem0, m.mem, t);
    }

    /** translate(vpn).unwrap().ppn(). */
    method Translate(vpn: nat) returns (ppn: nat)
      requires Valid() && Key(vpn) in Map()
      ensures ppn == PpnOf(Map()[Key(vpn)])
    {
      hide TreeOk, TableOf, TableFrames, Pair, Index2, Key, IsValid, FindPte;
      MappedHasTables(m.mem, t, vpn);
      LeafIsMapped(m.mem, t, vpn);
      var slot := FindPteOf(vpn);
      ppn := PpnOf(m.mem[slot.frame][slot.index]);
    }

    // Data frames join or leave the space.
    ghost method SetRoles(t': Tables)
      requires Valid()
      requires TreeOk(m.mem, t') && t'.root == t.root && TableFrames(t') == TableFrames(t) && t'.role.Keys <= m.Busy()
      modifies `t
      ensures Valid() && t == t' && Map() == TableOf(m.mem, t')
    {
      t := t';
    }

    // A zeroed frame that this table does not use yet.
    ghost predicate Spare(p: nat)
      reads this, m
    {
      p in m.Busy() && p !in t.role && p < |m.mem| && p < PPN_LIMIT && m.mem[p] == ZeroFrame()
    }

    method Grab() returns (r: Option<nat>)
      requires Valid()
      modifies m
      ensures Valid() && Map() == old(Map()) && old(m.Count()) <= m.Count() + 1
      ensures r.None? ==> m.Free() == {} == old(m.Free()) && m.Busy() == old(m.Busy()) && m.mem == old(m.mem)
      ensures m.Popped(old(m.recycled), r)
      ensures r.Some? ==> Spare(r.value)
      ensures r.Some? ==> Took(old(m.Free()), old(m.Busy()), m.Free(), m.Busy(), {r.value})
      ensures r.Some? ==> r.value < |old(m.mem)| && m.mem == old(m.mem)[r.value := ZeroFrame()]
    {
      hide TableOf, Roles, Levels, Entry, Machine.Popped;
      m.FreeAndBusy();
      r := m.FrameAlloc();
      assert SameOn(old(m.mem), m.mem, TableFrames(t));
      TreeFrame(old(m.mem), m.mem, t);
    }

    /** *pte = PageTableEntry::new(frame.ppn, V); self.frames.push(frame), in the root. */
    method LinkMid(i: nat, p: nat)
      requires Valid() && Spare(p) && i < 512 && i !in t.l1
      modifies this, m`mem
      ensures Valid() && Map() == old(Map()) && t == WithMid(old(t), i, p)
      ensures m.Free() == old(m.Free()) && m.Busy() == old(m.Busy())
      ensures SameExcept(old(m.mem), m.mem, TableFrames(t))
    {
      hide TreeOk, TableOf, TableFrames, Machine.Valid, Machine.Free, Machine.Busy, Pte;
      RootOnPath(m.mem, t);
      AddMid(m.mem, t, i, p);
      TableFramesGrow(t, WithMid(t, i, p), p);
      m.Write(root, i, Pte(p, V));
      t := WithMid(t, i, p);
      frames := frames + [p];
    }

    /** The same in the second-level table q. */
    method LinkLow(j: nat, p: nat, q: nat)
      requires Valid() && Spare(p) && j < PAIR_LIMIT && j !in t.l2
      requires j / 512 in t.l1 && q == t.l1[j / 512]
      modifies this, m`mem
      ensures Valid() && Map() == old(Map()) && t == WithLow(old(t), j, p)
      ensures m.Free() == old(m.Free()) && m.Busy() == old(m.Busy())
      ensures SameExcept(old(m.mem), m.mem, TableFrames(t))
    {
      hide TreeOk, TableOf, TableFrames;
      AddLow(m.mem, t, j, p);
      TableFramesGrow(t, WithLow(t, j, p), p);
      MidOnPath(m.mem, t, j / 512);
      m.Write(q, j % 512, Pte(p, V));
      t := WithLow(t, j, p);
      frames := frames + [p];
    }

    // The table reached after level steps of a walk for vpn.
    ghost predicate Reached(level: nat, vpn: nat, ppn: nat)
      reads this
    {
      match level
      case 0 => ppn == t.root
      case 1 => Index0(vpn) in t.l1 && ppn == t.l1[Index0(vpn)]
      case _ => Pair(vpn) in t.l2 && ppn == t.l2[Pair(vpn)]
    }

    /** One turn of find_pte_create's loop. */
    method Descend(level: nat, vpn: nat, ppn: nat, index: nat) returns (next: Option<nat>)
      requires Valid() && level < 2 && Reached(level, vpn, ppn)
      requires index == if level == 0 then Index0(vpn) else Index1(vpn)
      modifies this, m
      ensures Valid() && Map() == old(Map())
      ensures old(m.Count()) <= m.Count() + 1
      ensures next.None? ==> m.Free() == {}
      ensures next.Some? ==> Reached(level + 1, vpn, next.value)
      ensures Extends(old(t), t, old(m.Free()))
      ensures Took(old(m.Free()), old(m.Busy()), m.Free(), m.Busy(), t.role.Keys - old(t).role.Keys)
      ensures SameExcept(old(m.mem), m.mem, TableFrames(t))
      ensures old(Pair(vpn) in t.l2) ==>
                next.Some? && t == old(t) && frames == old(frames) && m.mem == old(m.mem)
    {
      hide TreeOk, TableOf, TableFrames, Pair, Index0, Index1, IsValid, PpnOf;
      OnPath(m.mem, t, vpn);
      PairSplits(vpn);
      if !IsValid(m.mem[ppn][index]) {
        var ok := AddTable(level, vpn, ppn, index);
        if !ok {
          return None;
        }
      }
      if level == 0 {
        MidOnPath(m.mem, t, index);
      } else {
        LowOnPath(m.mem, t, Pair(vpn));
      }
      next := Some(PpnOf(m.mem[ppn][index]));
    }

    /** The branch that makes a missing table. */
    method AddTable(level: nat, vpn: nat, ppn: nat, index: nat) returns (ok: bool)
      requires Valid() && level < 2 && Reached(level, vpn, ppn)
      requires level == 0 ==> index == Index0(vpn) && index !in t.l1
      requires level == 1 ==> index == Index1(vpn) && Pair(vpn) !in t.l2
      modifies this, m
      ensures Valid() && Map() == old(Map())
      ensures old(m.Count()) <= m.Count() + 1
      ensures !ok ==> m.Free() == {}
      ensures ok ==> if level == 0 then index in t.l1 else Pair(vpn) in t.l2 && Reached(1, vpn, ppn)
      ensures t.root == old(t).root
      ensures Extends(old(t), t, old(m.Free()))
      ensures Took(old(m.Free()), old(m.Busy()), m.Free(), m.Busy(), t.role.Keys - old(t).role.Keys)
      ensures SameExcept(old(m.mem), m.mem, TableFrames(t))
    {
      hide TreeOk, TableOf, TableFrames, Pair, Index0, Index1, IsValid, PpnOf;
      PairSplits(vpn);
      var r := Grab();
      if r.None? {
        return false;
      }
      if level == 0 {
        LinkMid(index, r.value);
      } else {
        LinkLow(Pair(vpn), r.value, ppn);
      }
      TableFramesGrow(old(t), t, r.value);
      ok := true;
    }

    /** find_pte_create: the leaf slot of vpn, with every table above it present. */
    method FindPteCreate(vpn: nat) returns (slot: Option<Slot>)
      requires Valid()
      modifies this, m
      ensures Valid() && Map() == old(Map())
      ensures old(m.Count()) <= m.Count() + 2
      ensures slot.None? ==> m.Free() == {}
      ensures slot.Some? ==> Pair(vpn) in t.l2 && slot.value == At(t.l2[Pair(vpn)], Index2(vpn))
      ensures Extends(old(t), t, old(m.Free()))
      ensures Took(old(m.Free()), old(m.Busy()), m.Free(), m.Busy(), t.role.Keys - old(t).role.Keys)
      ensures SameExcept(old(m.mem), m.mem, TableFrames(t))
      ensures old(Pair(vpn) in t.l2) ==>
                slot.Some? && t == old(t) && frames == old(frames) && m.mem == old(m.mem)
    {
      hide TreeOk, TableOf, TableFrames, Pair, Index0, Index1, Index2;
      var i0, i1, i2 := Indexes(vpn);
      var idxs := [i0, i1, i2];
      var ppn, i := root, 0;
      while i < 2
        invariant 0 <= i <= 2
        invariant Valid() && Map() == old(Map()) && Reached(i, vpn, ppn)
        invariant Extends(old(t), t, old(m.Free()))
        invariant Took(old(m.Free()), old(m.Busy()), m.Free(), m.Busy(), t.role.Keys - old(t).role.Keys)
        invariant SameExcept(old(m.mem), m.mem, TableFrames(t))
        invariant old(m.Count()) <= m.Count() + i
        invariant old(Pair(vpn) in t.l2) ==> t == old(t) && frames == old(frames) && m.mem == old(m.mem)
      {
        ghost var t1, mem1 := t, m.mem;
        var next := Descend(i, vpn, ppn, idxs[i]);
        ExtendsTransitive(old(t), t1, t, old(m.Free()));
        SameExceptGrows(old(m.mem), mem1, m.mem, t1, t, old(m.Free()) - (t1.role.Keys - old(t).role.Keys));
        if next.None? {
          return None;
        }
        ppn, i := next.value, i + 1;
      }
      slot := Some(At(ppn, i2));
    }

    /** map: 0 and one new entry, or -1 and no change when vpn is mapped already. */
    method MapPage(vpn: nat, ppn: nat, flags: nat) returns (r: Option<int>)
      requires Valid() && ppn < PPN_LIMIT && flags < 256 && flags % 2 == 0
      modifies this, m
      ensures Valid()
      ensures old(m.Count()) <= m.Count() + 2
      ensures r.None? ==> m.Free() == {} && Map() == old(Map())
      ensures r.Some? && Key(vpn) in old(Map()) ==> r.value == -1 && Map() == old(Map())
      ensures r.Some? && Key(vpn) !in old(Map()) ==>
                r.value == 0 && Map() == old(Map())[Key(vpn) := Pte(ppn, flags + V)]
      ensures Extends(old(t), t, old(m.Free()))
      ensures Took(old(m.Free()), old(m.Busy()), m.Free(), m.Busy(), t.role.Keys - old(t).role.Keys)
      ensures SameExcept(old(m.mem), m.mem, TableFrames(t))
    {
      hide TreeOk, TableOf, TableFrames, Pair, Index0, Index1, Index2, Key, Pte, IsValid, Poke;
      hide Machine.Free, Machine.Busy, Machine.Count, Extends, Took, SameExcept;
      var slot := FindPteCreate(vpn);
      if slot.None? {
        return None;
      }
      LowOnPath(m.mem, t, Pair(vpn));
      LeafIsMapped(m.mem, t, vpn);
      if IsValid(m.mem[slot.value.frame][slot.value.index]) {
        return Some(-1);
      }
      ghost var mem1 := m.mem;
      SetLeaf(m.mem, t, vpn, Pte(ppn, flags + V));
      PteRoundTrip(ppn, flags + V);
      m.Write(slot.value.frame, slot.value.index, Pte(ppn, flags + V));
      PokeInside(old(m.mem), mem1, TableFrames(t), slot.value.frame, slot.value.index, Pte(ppn, flags + V));
      r := Some(0);
    }

    /** unmap: removes exactly one entry. No table is created, since vpn is mapped. */
    method UnmapPage(vpn: nat)
      requires Valid() && Key(vpn) in Map()
      modifies this, m
      ensures Valid() && t == old(t) && frames == old(frames)
      ensures Map() == old(Map()) - {Key(vpn)}
      ensures m.Free() == old(m.Free()) && m.Busy() == old(m.Busy())
      ensures SameExcept(old(m.mem), m.mem, TableFrames(t))
    {
      hide TreeOk, TableOf, TableFrames, Pair, Index0, Index1, Index2, Key, IsValid, Poke;
      MappedHasTables(m.mem, t, vpn);
      var slot := FindPteCreate(vpn);
      assert t.role.Keys - old(t).role.Keys == {};
      LowOnPath(m.mem, t, Pair(vpn));
      SetLeaf(m.mem, t, vpn, 0);
      ghost var mem1 := m.mem;
      m.Write(slot.value.frame, slot.value.index, 0);
      PokeInside(mem1, mem1, TableFrames(t), slot.value.frame, slot.value.index, 0);
      ZeroIsInvalid();
    }

    /** find_pte's loop. */
    method FindPteOf(vpn: nat) returns (slot: Slot)
      requires Valid()
      ensures slot == FindPte(m.mem, root, vpn)
      ensures slot == if Pair(vpn) in t.l2 then At(t.l2[Pair(vpn)], Index2(vpn)) else NoSlot
    {
      hide TableOf, TableFrames, Pair, Index0, Index1, Index2, IsValid, PpnOf;
      var i0, i1, i2 := Indexes(vpn);
      var idxs := [i0, i1, i2];
      FindPteIsLeaf(m.mem, t, vpn);
      OnPath(m.mem, t, vpn);
      PairSplits(vpn);
      var ppn, i := root, 0;
      while i < 2
        invariant 0 <= i <= 2 && Reached(i, vpn, ppn)
      {
        if !IsValid(m.mem[ppn][idxs[i]]) {
          return NoSlot;
        }
        if i == 0 { MidOnPath(m.mem, t, i0); } else { LowOnPath(m.mem, t, Pair(vpn)); }
        ppn, i := PpnOf(m.mem[ppn][idxs[i]]), i + 1;
      }
      slot := At(ppn, i2);
    }
  }

  lemma RootOnPath(mem: seq<Frame>, t: Tables)
    requires TreeOk(mem, t)
    ensures t.root < |mem| && t.root in TableFrames(t)
  {
  }

  lemma MidOnPath(mem: seq<Frame>, t: Tables, i: nat)
    requires TreeOk(mem, t) && i in t.l1
    ensures i < 512 && t.l1[i] < |mem| && t.l1[i] in TableFrames(t)
    ensures IsValid(mem[t.root][i]) && PpnOf(mem[t.root][i]) == t.l1[i]
  {
    assert Entry(mem, t.root, i, t.l1, i);
  }

  lemma LowOnPath(mem: seq<Frame>, t: Tables, j: nat)
    requires TreeOk(mem, t) && j in t.l2
    ensures j < PAIR_LIMIT && j / 512 in t.l1 && t.l2[j] < |mem| && t.l2[j] in TableFrames(t)
    ensures t.l1[j / 512] < |mem| && IsValid(mem[t.l1[j / 512]][j % 512])
    ensures PpnOf(mem[t.l1[j / 512]][j % 512]) == t.l2[j]
  {
    assert Entry(mem, t.l1[j / 512], j % 512, t.l2, j);
  }

  // At each level the entry on the path is valid exactly when the table below it exists.
  lemma OnPath(mem: seq<Frame>, t: Tables, vpn: nat)
    requires TreeOk(mem, t)
    ensures t.root < |mem| && (IsValid(mem[t.root][Index0(vpn)]) <==> Index0(vpn) in t.l1)
    ensures Index0(vpn) in t.l1 ==>
              && t.l1[Index0(vpn)] < |mem|
              && (IsValid(mem[t.l1[Index0(vpn)]][Index1(vpn)]) <==> Pair(vpn) in t.l2)
    ensures Pair(vpn) in t.l2 ==> Index0(vpn) in t.l1
  {
    PairSplits(vpn);
    assert Entry(mem, t.root, Index0(vpn), t.l1, Index0(vpn));
    assert Index0(vpn) in t.l1 ==> Entry(mem, t.l1[Index0(vpn)], Index1(vpn), t.l2, Pair(vpn));
  }

  lemma TableFramesGrow(t: Tables, t': Tables, p: nat)
    requires p !in t.role && p in t'.role && !t'.role[p].Data? && t'.role == t.role[p := t'.role[p]]
    ensures p !in TableFrames(t) && TableFrames(t') == TableFrames(t) + {p}
  {
  }

  // Only the given frames may have changed.
  ghost predicate SameExcept(mem: seq<Frame>, mem': seq<Frame>, frames: set<nat>) {
    |mem'| == |mem| && forall p :: 0 <= p < |mem| && p !in frames ==> mem'[p] == mem[p]
  }

  lemma SameExceptGrows(mem0: seq<Frame>, mem1: seq<Frame>, mem2: seq<Frame>, t1: Tables, t2: Tables, free: set<nat>)
    requires SameExcept(mem0, mem1, TableFrames(t1)) && SameExcept(mem1, mem2, TableFrames(t2))
    requires Extends(t1, t2, free)
    ensures SameExcept(mem0, mem2, TableFrames(t2))
  {
  }

  lemma PokeInside(mem0: seq<Frame>, mem1: seq<Frame>, frames: set<nat>, p: nat, i: nat, w: nat)
    requires SameExcept(mem0, mem1, frames) && p in frames && p < |mem1| && i < 512
    ensures SameExcept(mem0, Poke(mem1, p, i, w), frames)
  {
  }

  // The leaf entry of vpn is valid exactly when the map has its key.
  lemma LeafIsMapped(mem: seq<Frame>, t: Tables, vpn: nat)
    requires TreeOk(mem, t) && Pair(vpn) in t.l2
    ensures t.l2[Pair(vpn)] < |mem|
    ensures IsValid(mem[t.l2[Pair(vpn)]][Index2(vpn)]) <==> Key(vpn) in TableOf(mem, t)
    ensures Key(vpn) in TableOf(mem, t) ==> TableOf(mem, t)[Key(vpn)] == mem[t.l2[Pair(vpn)]][Index2(vpn)]
  {
    KeySplits(vpn);
  }

  lemma MappedHasTables(mem: seq<Frame>, t: Tables, vpn: nat)
    requires TreeOk(mem, t) && Key(vpn) in TableOf(mem, t)
    ensures Pair(vpn) in t.l2
  {
    KeySplits(vpn);
  }

  lemma ZeroIsInvalid()
    ensures !IsValid(0)
  {
  }
}
