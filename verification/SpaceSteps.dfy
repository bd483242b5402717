/** Each operation on one address space, seen from inside and from outside: what its process sees, and which frames it used. */
module SpaceSteps {
  import opened Basics
  import opened Pages
  import opened Frames
  import opened PageTables
  import opened Spaces
  import opened MemorySets
  import opened AddressSpaces
  import opened Forks
  import opened Views
  import opened Reclaims
  import opened UserBuffers
  import PM = PrivateMemories

  // A step in which one space, owning was and then own, took its new frames from the free ones
  // and wrote no one else's.
  ghost predicate Local(f: set<nat>, b: set<nat>, mem: seq<Frame>, was: set<nat>, own: set<nat>,
                        f': set<nat>, b': set<nat>, mem': seq<Frame>) {
    && was <= b && own <= was + f && f' == (f + was) - own && b' == (b - was) + own
    && SameExcept(mem, mem', was + own + f)
  }

  // Space s over the memory mem, when the frames in busy are in use.
  ghost predicate Sound(s: MemorySet, dead: bool, fixed: map<nat, nat>, mem: seq<Frame>, busy: set<nat>)
    reads s, s.pt
  {
    && s.pt.root == s.pt.t.root && TreeOk(mem, s.pt.t) && s.pt.Trackers() && s.pt.t.role.Keys <= busy
    && Fits(s.pt.t, mem)
    && (dead ==> s.areas == [] && s.pt.t.role.Keys == TableFrames(s.pt.t))
    && (!dead ==> SpaceOk(TableOf(mem, s.pt.t), s.pt.t, s.areas, s.fixed) && s.fixed == fixed && AllFramed(s.areas))
  }

  // What the process looks like from inside.
  ghost function ProcessOf(s: MemorySet, dead: bool, mem: seq<Frame>): PM.Process
    requires TreeOk(mem, s.pt.t)
    reads s, s.pt
  {
    if dead then PM.Zombie else PM.Live(RegionsOf(s.areas), View(TableOf(mem, s.pt.t), s.fixed, mem))
  }

  // None of the frames of s changed.
  lemma Kept(s: MemorySet, dead: bool, fixed: map<nat, nat>, mem: seq<Frame>, busy: set<nat>,
             mem': seq<Frame>, busy': set<nat>)
    requires Sound(s, dead, fixed, mem, busy) && s.pt.t.role.Keys <= busy'
    requires |mem'| == |mem| && forall p :: p in s.pt.t.role && p < |mem| ==> mem'[p] == mem[p]
    ensures Sound(s, dead, fixed, mem', busy') && TreeOk(mem, s.pt.t) && TreeOk(mem', s.pt.t)
    ensures ProcessOf(s, dead, mem') == ProcessOf(s, dead, mem)
  {
    assert Levels(mem, s.pt.t);
    hide SpaceOk, View, TreeOk, TableOf;
    assert TableFrames(s.pt.t) <= s.pt.t.role.Keys;
    TreeFrame(mem, mem', s.pt.t);
    if !dead {
      ViewKept(TableOf(mem, s.pt.t), s.pt.t, s.areas, s.fixed, mem, mem');
    }
  }

  lemma SoundIsOk(s: MemorySet, fixed: map<nat, nat>)
    requires s.pt.m.Valid() && AllFramed(s.areas) && s.fixed == fixed
    ensures Sound(s, false, fixed, s.pt.m.mem, s.pt.m.Busy()) <==> s.Ok()
    ensures s.Ok() ==> s.pt.Map() == TableOf(s.pt.m.mem, s.pt.t)
  {
    hide SpaceOk, TreeOk, TableOf;
    if s.pt.Valid() { s.pt.Facts(); }
  }

  // ----- what each operation does is local

  lemma AddedIsLocal(t: Tables, f: set<nat>, b: set<nat>, mem: seq<Frame>, t': Tables, f': set<nat>, b': set<nat>, mem': seq<Frame>)
    requires Added(t, f, b, mem, t', f', b', mem') && t.role.Keys <= b && f !! b
    ensures Local(f, b, mem, t.role.Keys, t'.role.Keys, f', b', mem')
  {
    assert t'.role.Keys == t.role.Keys + (t'.role.Keys - t.role.Keys);
  }

  lemma UndoneIsLocal(t: Tables, f: set<nat>, b: set<nat>, mem: seq<Frame>, t': Tables, f': set<nat>, b': set<nat>, mem': seq<Frame>)
    requires Undone(t, f, b, mem, t', f', b', mem') && t.role.Keys <= b && f !! b
    ensures Local(f, b, mem, t.role.Keys, t'.role.Keys, f', b', mem')
    ensures |mem'| == |mem| && forall p :: p in t.role && t.role[p].Data? && p < |mem| ==> mem'[p] == mem[p]
  {
    assert t'.role.Keys == t.role.Keys + (t'.role.Keys - t.role.Keys);
  }

  // A key is taken exactly when the page table maps it.
  lemma TakenIsMapped(m: map<nat, nat>, t: Tables, areas: seq<MapArea>, fixed: map<nat, nat>, mem: seq<Frame>,
                      lo: nat, hi: nat, perm: nat)
    requires SpaceOk(m, t, areas, fixed) && fixed.Keys == {PM.Reserved()}
    ensures forall k :: PM.Taken(View(m, fixed, mem), k) <==> k in m
    ensures PM.Vacant(View(m, fixed, mem), lo, hi) <==> NoConflict(m, MapArea(lo, hi, map[], Framed, perm))
  {
    FixedIsMapped(m, t, areas, fixed);
    hide SpaceOk, Key;
    var a := MapArea(lo, hi, map[], Framed, perm);
    assert forall v: nat :: Within(a, v) <==> lo <= v < hi;
  }

  // ----- the operations

  ghost predicate Ready(s: MemorySet, fixed: map<nat, nat>)
    reads s, s.pt, s.pt.m
  {
    && s.pt.m.Valid() && Sound(s, false, fixed, s.pt.m.mem, s.pt.m.Busy())
    && fixed.Keys == {PM.Reserved()}
  }

  ghost function Seen(s: MemorySet): PM.Process
    requires TreeOk(s.pt.m.mem, s.pt.t)
    reads s, s.pt, s.pt.m
  {
    ProcessOf(s, false, s.pt.m.mem)
  }

  lemma ReadyFacts(s: MemorySet, fixed: map<nat, nat>)
    requires Ready(s, fixed)
    ensures s.Ok() && AllFramed(s.areas) && s.fixed == fixed && TreeOk(s.pt.m.mem, s.pt.t)
    ensures fixed.Keys == {PM.Reserved()}
    ensures s.pt.Map() == TableOf(s.pt.m.mem, s.pt.t) && Fits(s.pt.t, s.pt.m.mem)
    ensures SpaceOk(s.pt.Map(), s.pt.t, s.areas, s.fixed)
    ensures Seen(s) == PM.Live(RegionsOf(s.areas), View(s.pt.Map(), fixed, s.pt.m.mem))
    ensures s.pt.t.role.Keys <= s.pt.m.Busy() && s.pt.m.Free() !! s.pt.m.Busy()
  {
    SoundIsOk(s, fixed);
    s.pt.Facts();
  }

  lemma OkIsReady(s: MemorySet, fixed: map<nat, nat>)
    requires s.Ok() && AllFramed(s.areas) && s.fixed == fixed && fixed.Keys == {PM.Reserved()}
    ensures Ready(s, fixed)
  {
    s.pt.Facts();
    SoundIsOk(s, fixed);
  }

  lemma NotReady(s: MemorySet, fixed: map<nat, nat>)
    requires !s.Ok()
    ensures !Ready(s, fixed)
  {
    if Ready(s, fixed) { ReadyFacts(s, fixed); }
  }

  // A page of s leads to a frame that may be handed out at any time.
  ghost predicate Stale(s: MemorySet, vpn: nat)
    requires s.pt.Valid()
    reads s, s.pt, s.pt.m
  {
    Key(vpn) in s.pt.Map() && PpnOf(s.pt.Map()[Key(vpn)]) in s.pt.m.Free()
  }

  /**
   insert_framed_area: zeroed pages appear, unless the range is taken. The space is intact afterwards
   exactly when the range was free or its first page was taken.
   */
  method Insert(s: MemorySet, startVa: nat, endVa: nat, perm: nat, ghost fixed: map<nat, nat>) returns (r: Option<int>)
    requires Ready(s, fixed) && PermOk(perm) && 0 < endVa
    requires Floor(startVa) <= Ceil(endVa) <= Floor(startVa) + KEY_LIMIT
    modifies s, s.pt, s.pt.m
    ensures s.pt.Valid() && (r.None? ==> s.pt.m.Free() == {})
    ensures r.Some? ==> r.value == if PM.Vacant(old(Seen(s)).pages, Floor(startVa), Ceil(endVa)) then 0 else -1
    ensures r.Some? ==> (Ready(s, fixed) <==> PM.Clean(old(Seen(s)).pages, Floor(startVa), Ceil(endVa)))
    ensures r.Some? && Ready(s, fixed) ==> Seen(s) == PM.Inserted(old(Seen(s)), Floor(startVa), Ceil(endVa), perm)
    ensures r.Some? ==> Local(old(s.pt.m.Free()), old(s.pt.m.Busy()), old(s.pt.m.mem), old(s.pt.t.role.Keys),
                              s.pt.t.role.Keys, s.pt.m.Free(), s.pt.m.Busy(), s.pt.m.mem)
    ensures r.Some? && !Ready(s, fixed) ==> Stale(s, Floor(startVa))
  {
    hide Ready, Seen, Sound, ProcessOf, Machine.Valid, Machine.Free, Machine.Busy, SpaceOk, TreeOk, Local, Added, Undone;
    hide View, TableOf, RegionsOf, Key, Floor, Ceil, PM.Vacant, PM.Taken, NoConflict, PageTable.Valid, PageTable.Map;
    hide PM.Zeroed, AllFramed, Fits, KeysAfter, PM.Reserved;
    ghost var lo, hi := Floor(startVa), Ceil(endVa);
    ReadyFacts(s, fixed);
    ghost var t, areas, m0 := s.pt.t, s.areas, s.pt.Map();
    ghost var f, b, mem := s.pt.m.Free(), s.pt.m.Busy(), s.pt.m.mem;
    TakenIsMapped(m0, t, areas, fixed, mem, lo, hi, perm);
    r := s.InsertFramedArea(startVa, endVa, perm);
    if r.None? {
      return;
    }
    FramedStill(areas, s.areas);
    if !s.Ok() {
      NotReady(s, fixed);
      UndoneIsLocal(t, f, b, mem, s.pt.t, s.pt.m.Free(), s.pt.m.Busy(), s.pt.m.mem);
    } else if r.value == 0 {
      OkIsReady(s, fixed);
      ReadyFacts(s, fixed);
      ghost var a := s.areas[|areas|];
      assert s.areas == areas + [a];
      SameRange(m0, NewArea(startVa, endVa, perm), a, s.pt.Map());
      ViewInserted(m0, t, f, b, mem, s.pt.Map(), s.pt.t, s.pt.m.Free(), s.pt.m.Busy(), s.pt.m.mem, areas, a, fixed);
      AddedIsLocal(t, f, b, mem, s.pt.t, s.pt.m.Free(), s.pt.m.Busy(), s.pt.m.mem);
      assert RegionsOf(areas + [a]) == RegionsOf(areas) + [PM.Region(a.start, a.end, a.perm)];
    } else {
      OkIsReady(s, fixed);
      ReadyFacts(s, fixed);
      UndoneIsLocal(t, f, b, mem, s.pt.t, s.pt.m.Free(), s.pt.m.Busy(), s.pt.m.mem);
      ViewKept(m0, t, areas, fixed, mem, s.pt.m.mem);
    }
  }

  lemma FramedStill(areas: seq<MapArea>, areas': seq<MapArea>)
    requires AllFramed(areas)
    requires areas' == areas || (|areas'| == |areas| + 1 && areas'[..|areas|] == areas && areas'[|areas|].kind.Framed?)
    ensures AllFramed(areas')
  {
    assert forall i :: 0 <= i < |areas| && areas' != areas ==> areas'[i] == areas'[..|areas|][i];
  }

  // Only data frames that the areas hold can leave with an area.
  lemma RemovedIsLocal(t: Tables, f: set<nat>, b: set<nat>, mem: seq<Frame>, gone: set<nat>, t': Tables,
                       f': set<nat>, b': set<nat>, mem': seq<Frame>)
    requires t' == t.(role := t.role - gone) && gone <= t.role.Keys && t.role.Keys <= b && f !! b
    requires f' == f + gone && b' == b - gone && SameExcept(mem, mem', TableFrames(t))
    ensures Local(f, b, mem, t.role.Keys, t'.role.Keys, f', b', mem')
  {
    assert TableFrames(t) <= t.role.Keys;
    assert t'.role.Keys == t.role.Keys - gone;
  }

  lemma HeldByArea(m: map<nat, nat>, t: Tables, areas: seq<MapArea>, fixed: map<nat, nat>, i: nat)
    requires SpaceOk(m, t, areas, fixed) && AllFramed(areas) && i < |areas|
    ensures FrameSet(areas[i].frames, areas[i].start, areas[i].end) <= t.role.Keys
    ensures areas[i].start <= areas[i].end
  {
    hide SpaceOk;
    AllTracked(m, t, areas, fixed);
    assert Tracked(t, areas[i]);
  }

  lemma RegionsWithout(areas: seq<MapArea>, i: nat)
    requires i < |areas|
    ensures RegionsOf(areas[..i] + areas[i + 1..]) == RegionsOf(areas)[..i] + RegionsOf(areas)[i + 1..]
    ensures AllFramed(areas) ==> AllFramed(areas[..i] + areas[i + 1..])
  {
  }

  /** remove_framed_area: the pages of the first area inside the range disappear. */
  method Remove(s: MemorySet, startVa: nat, endVa: nat, ghost fixed: map<nat, nat>) returns (r: int)
    requires Ready(s, fixed) && 0 < endVa && Floor(startVa) <= Ceil(endVa)
    modifies s, s.pt, s.pt.m
    ensures Ready(s, fixed) && Seen(s) == PM.Removed(old(Seen(s)), Floor(startVa), Ceil(endVa))
    ensures r == PM.RemoveAnswer(old(Seen(s)), Floor(startVa), Ceil(endVa))
    ensures Local(old(s.pt.m.Free()), old(s.pt.m.Busy()), old(s.pt.m.mem), old(s.pt.t.role.Keys),
                  s.pt.t.role.Keys, s.pt.m.Free(), s.pt.m.Busy(), s.pt.m.mem)
  {
    hide Ready, Seen, Sound, ProcessOf, Machine.Valid, Machine.Free, Machine.Busy, SpaceOk, TreeOk, Local;
    hide View, TableOf, RegionsOf, Floor, Ceil, PageTable.Valid, PageTable.Map, PM.KeysOf, Inside, PM.FirstIn;
    hide AllFramed, Fits, PM.Reserved, SameExcept, TableFrames, FrameSet, MemorySets.Removed;
    ReadyFacts(s, fixed);
    ghost var t, areas, m0 := s.pt.t, s.areas, s.pt.Map();
    ghost var f, b, mem := s.pt.m.Free(), s.pt.m.Busy(), s.pt.m.mem;
    ghost var i := Inside(areas, Floor(startVa), Ceil(endVa), 0);
    SameFirst(areas, Floor(startVa), Ceil(endVa));
    r := s.RemoveFramedArea(startVa, endVa);
    if i == |areas| {
      OkIsReady(s, fixed);
      ReadyFacts(s, fixed);
      NothingLocal(f, b, mem, t);
    } else {
      ghost var a := areas[i];
      HeldByArea(m0, t, areas, fixed, i);
      RegionsWithout(areas, i);
      OkIsReady(s, fixed);
      ReadyFacts(s, fixed);
      ViewRemoved(m0, t, mem, s.pt.Map(), s.pt.m.mem, areas, a, fixed);
      RemovedIsLocal(t, f, b, mem, FrameSet(a.frames, a.start, a.end), s.pt.t, s.pt.m.Free(), s.pt.m.Busy(), s.pt.m.mem);
    }
  }

  lemma NothingLocal(f: set<nat>, b: set<nat>, mem: seq<Frame>, t: Tables)
    requires t.role.Keys <= b && f !! b
    ensures Local(f, b, mem, t.role.Keys, t.role.Keys, f, b, mem)
  {
  }

  lemma DataFrameIsNoTable(t: Tables, p: nat, mem: seq<Frame>, i: nat, w: nat, f: set<nat>, b: set<nat>)
    requires p in t.role && t.role[p].Data? && p < |mem| && i < 512 && t.role.Keys <= b && f !! b
    ensures SameOn(mem, Poke(mem, p, i, w), TableFrames(t))
    ensures Local(f, b, mem, t.role.Keys, t.role.Keys, f, b, Poke(mem, p, i, w))
  {
  }

  // The frame behind a mapped page.
  lemma MappedFrame(m: map<nat, nat>, t: Tables, areas: seq<MapArea>, fixed: map<nat, nat>, mem: seq<Frame>, k: nat)
    requires SpaceOk(m, t, areas, fixed) && AllFramed(areas) && Fits(t, mem)
    requires k in View(m, fixed, mem)
    ensures k in m && k !in fixed && PpnOf(m[k]) < |mem|
    ensures View(m, fixed, mem)[k].words == mem[PpnOf(m[k])]
  {
    hide SpaceOk;
    var i, v := KeyPage(m, t, areas, fixed, mem, k);
  }

  // translate_va leads to a word of memory, at the offset that va has in its page.
  ghost predicate AtWord(mem: seq<Frame>, root: nat, va: nat) {
    && root < |mem| && TranslateVa(mem, root, va).Some?
    && var pa := TranslateVa(mem, root, va).value;
       pa / PAGE_SIZE < |mem| && pa % PAGE_SIZE == PageOffset(va) && pa % PAGE_SIZE % 8 == 0
  }

  // Of all memory, the word at the physical address of va was changed, and it is now word.
  ghost predicate StoredAt(mem: seq<Frame>, mem': seq<Frame>, root: nat, va: nat, word: nat) {
    && AtWord(mem, root, va)
    && var pa := TranslateVa(mem, root, va).value;
       mem' == Poke(mem, pa / PAGE_SIZE, pa % PAGE_SIZE / 8, word)
  }

  // The word at the physical address of va.
  ghost predicate LoadedAt(mem: seq<Frame>, root: nat, va: nat, word: nat) {
    && AtWord(mem, root, va)
    && var pa := TranslateVa(mem, root, va).value;
       word == mem[pa / PAGE_SIZE][pa % PAGE_SIZE / 8]
  }

  lemma PhysicalSplits(ppn: nat, va: nat)
    requires va % 8 == 0
    ensures var pa := ppn * PAGE_SIZE + PageOffset(va);
            pa / PAGE_SIZE == ppn && pa % PAGE_SIZE == PageOffset(va) && PageOffset(va) % 8 == 0
  {
    var pa := ppn * PAGE_SIZE + PageOffset(va);
    assert pa / PAGE_SIZE == ppn;
  }

  lemma WhereItLeads(mem: seq<Frame>, t: Tables, va: nat, ppn: nat)
    requires TreeOk(mem, t) && Key(Floor(va)) in TableOf(mem, t) && ppn == PpnOf(TableOf(mem, t)[Key(Floor(va))])
    requires ppn < |mem| && va % 8 == 0
    ensures AtWord(mem, t.root, va)
    ensures var pa := TranslateVa(mem, t.root, va).value;
            pa / PAGE_SIZE == ppn && pa % PAGE_SIZE / 8 == PageOffset(va) / 8
  {
    TranslateMapped(mem, t, va);
    PhysicalSplits(ppn, va);
    hide TreeOk, TableOf, Key, Floor, PpnOf, TranslateVa, PageOffset;
  }

  /** A kernel store through translated_refmut: *ptr = word. */
  method Store(s: MemorySet, va: nat, word: nat, ghost fixed: map<nat, nat>)
    requires Ready(s, fixed) && va % 8 == 0 && Key(Floor(va)) in Seen(s).pages
    modifies s.pt.m`mem
    ensures Ready(s, fixed) && Seen(s) == PM.Stored(old(Seen(s)), va, word)
    ensures StoredAt(old(s.pt.m.mem), s.pt.m.mem, s.pt.root, va, word)
    ensures Local(old(s.pt.m.Free()), old(s.pt.m.Busy()), old(s.pt.m.mem), s.pt.t.role.Keys,
                  s.pt.t.role.Keys, s.pt.m.Free(), s.pt.m.Busy(), s.pt.m.mem)
  {
    hide Ready, Seen, Sound, ProcessOf, Machine.Valid, Machine.Free, Machine.Busy, SpaceOk, TreeOk, Local;
    hide View, TableOf, RegionsOf, Floor, PageTable.Valid, PageTable.Map, PageTable.Trackers;
    hide AllFramed, Fits, PM.Reserved, Key, PpnOf, Poke, SameOn, PM.Poked;
    ReadyFacts(s, fixed);
    s.pt.Facts();
    var m := s.pt.m;
    ghost var k, x, m0, mem := Key(Floor(va)), PM.Word(va), s.pt.Map(), m.mem;
    MappedFrame(m0, s.pt.t, s.areas, fixed, mem, k);
    var ppn := s.pt.Translate(Floor(va));
    ViewStored(m0, s.pt.t, s.areas, fixed, mem, k, x, word);
    DataFrameIsNoTable(s.pt.t, ppn, mem, x, word, m.Free(), m.Busy());
    WhereItLeads(mem, s.pt.t, va, ppn);
    m.Write(ppn, PageOffset(va) / 8, word);
    s.pt.StaysValid(mem);
    OkIsReady(s, fixed);
    ReadyFacts(s, fixed);
  }

  /** A kernel load through translated_ref. */
  method Load(s: MemorySet, va: nat, ghost fixed: map<nat, nat>) returns (word: nat)
    requires Ready(s, fixed) && va % 8 == 0 && Key(Floor(va)) in Seen(s).pages
    ensures word == Seen(s).pages[Key(Floor(va))].words[PM.Word(va)]
    ensures LoadedAt(s.pt.m.mem, s.pt.root, va, word)
  {
    hide Ready, Seen, Sound, ProcessOf, Machine.Valid, SpaceOk, TreeOk;
    hide View, TableOf, RegionsOf, Floor, PageTable.Valid, PageTable.Map, AllFramed, Fits, PM.Reserved, Key, PpnOf;
    ReadyFacts(s, fixed);
    MappedFrame(s.pt.Map(), s.pt.t, s.areas, fixed, s.pt.m.mem, Key(Floor(va)));
    var ppn := s.pt.Translate(Floor(va));
    s.pt.Facts();
    WhereItLeads(s.pt.m.mem, s.pt.t, va, ppn);
    word := s.pt.m.mem[ppn][PageOffset(va) / 8];
  }

  ghost function Trampoline(ppn: nat): map<nat, nat> {
    map[PM.Reserved() := Pte(ppn, R + X + V)]
  }

  lemma OwnsIsLocal(f: set<nat>, b: set<nat>, mem: seq<Frame>, t: Tables, f': set<nat>, b': set<nat>, mem': seq<Frame>)
    requires Owns(f, b, mem, t, f', b', mem')
    ensures Local(f, b, mem, {}, t.role.Keys, f', b', mem')
  {
  }

  lemma NothingSeen(m: map<nat, nat>, t: Tables, fixed: map<nat, nat>, mem: seq<Frame>)
    requires SpaceOk(m, t, [], fixed)
    ensures View(m, fixed, mem) == map[]
  {
    assert forall k :: k in m ==> Covered([], fixed, k);
  }

  /** new_bare and map_trampoline, with which every address space begins. */
  method New(m: Machine, ppn: nat) returns (r: Option<MemorySet>)
    requires m.Valid() && ppn < PPN_LIMIT
    modifies m
    ensures r.None? ==> m.Free() == {}
    ensures r.Some? ==> fresh(r.value) && fresh(r.value.pt) && r.value.pt.m == m
    ensures r.Some? ==> Ready(r.value, Trampoline(ppn)) && Seen(r.value) == PM.Live([], map[])
    ensures r.Some? ==> Local(old(m.Free()), old(m.Busy()), old(m.mem), {},
                              r.value.pt.t.role.Keys, m.Free(), m.Busy(), m.mem)
  {
    hide Ready, Seen, Sound, ProcessOf, Machine.Valid, Machine.Free, Machine.Busy, SpaceOk, TreeOk, Local, Owns, Added;
    hide View, TableOf, PageTable.Valid, PageTable.Map, PageTable.Trackers, Fits, Key, Pte;
    ghost var f, b, mem := m.Free(), m.Busy(), m.mem;
    r := NewBare(m);
    if r.None? {
      return;
    }
    var s := r.value;
    ghost var t1, f1, b1, mem1 := s.pt.t, m.Free(), m.Busy(), m.mem;
    var ok := MapTrampoline(s, ppn);
    if !ok {
      return None;
    }
    OwnsMore(f, b, mem, t1, f1, b1, mem1, s.pt.t, m.Free(), m.Busy(), m.mem);
    OwnsIsLocal(f, b, mem, s.pt.t, m.Free(), m.Busy(), m.mem);
    OkIsReady(s, Trampoline(ppn));
    ReadyFacts(s, Trampoline(ppn));
    NothingSeen(s.pt.Map(), s.pt.t, s.fixed, m.mem);
    assert RegionsOf([]) == [];
  }

  /** from_existed_user: the child sees what the parent sees. */
  method Fork(user: MemorySet, ppn: nat) returns (r: Option<MemorySet>)
    requires Ready(user, Trampoline(ppn)) && ppn < PPN_LIMIT
    modifies user.pt.m
    ensures r.None? ==> user.pt.m.Free() == {}
    ensures r.Some? ==> fresh(r.value) && fresh(r.value.pt) && r.value.pt.m == user.pt.m
    ensures r.Some? ==> Ready(r.value, Trampoline(ppn)) && Seen(r.value) == old(Seen(user))
    ensures r.Some? ==> Local(old(user.pt.m.Free()), old(user.pt.m.Busy()), old(user.pt.m.mem), {},
                              r.value.pt.t.role.Keys, user.pt.m.Free(), user.pt.m.Busy(), user.pt.m.mem)
  {
    hide Ready, Seen, Sound, ProcessOf, Machine.Valid, Machine.Free, Machine.Busy, SpaceOk, TreeOk, Local, Owns, Copied;
    hide View, TableOf, PageTable.Valid, PageTable.Map, PageTable.Trackers, Fits, Key, Pte, RegionsOf;
    ReadyFacts(user, Trampoline(ppn));
    var m := user.pt.m;
    ghost var f, b, mem, m0 := m.Free(), m.Busy(), m.mem, user.pt.Map();
    r := FromExistedUser(user, ppn);
    if r.None? {
      return;
    }
    var s := r.value;
    TwinsFramed(user.areas, s.areas);
    OwnsIsLocal(f, b, mem, s.pt.t, m.Free(), m.Busy(), m.mem);
    OkIsReady(s, Trampoline(ppn));
    ReadyFacts(s, Trampoline(ppn));
    ViewForked(m0, user.pt.t, mem, user.areas, user.fixed, s.pt.Map(), s.pt.t, m.mem, s.areas, s.fixed);
  }

  lemma TwinsFramed(xs: seq<MapArea>, ys: seq<MapArea>)
    requires Twins(xs, ys) && AllFramed(xs)
    ensures AllFramed(ys) && RegionsOf(ys) == RegionsOf(xs)
  {
    forall i | 0 <= i < |ys| ensures ys[i] == xs[i].(frames := ys[i].frames) { assert Twin(xs[i], ys[i]); }
  }

  /** recycle_data_pages, when the process exits: only its tables stay. */
  method Exit(s: MemorySet, ghost fixed: map<nat, nat>)
    requires Ready(s, fixed)
    modifies s, s.pt`t, s.pt.m`recycled
    ensures s.pt.m.Valid() && Sound(s, true, fixed, s.pt.m.mem, s.pt.m.Busy())
    ensures Local(old(s.pt.m.Free()), old(s.pt.m.Busy()), old(s.pt.m.mem), old(s.pt.t.role.Keys),
                  s.pt.t.role.Keys, s.pt.m.Free(), s.pt.m.Busy(), s.pt.m.mem)
  {
    hide Ready, Seen, ProcessOf, Machine.Valid, Machine.Free, Machine.Busy, SpaceOk, TreeOk;
    hide View, TableOf, PageTable.Valid, PageTable.Map, PageTable.Trackers, Fits;
    ReadyFacts(s, fixed);
    ghost var t := s.pt.t;
    RecycleDataPages(s);
    assert TableFrames(t) <= t.role.Keys;
    s.pt.Facts();
    FitsOf(s.pt);
  }

  lemma FitsOf(pt: PageTable)
    requires pt.Valid()
    ensures Fits(pt.t, pt.m.mem)
  {
    pt.Facts();
  }
}
