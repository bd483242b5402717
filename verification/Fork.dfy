/** Copying an address space: MemorySet::from_existed_user. */
module Forks {
  import opened Basics
  import opened Pages
  import opened Frames
  import opened PageTables
  import opened Spaces
  import opened MemorySets
  import opened AddressSpaces

  // TRAMPOLINE is the highest page of the 64-bit address space.
  const TRAMPOLINE_VPN := 0xf_ffff_ffff_ffff

  // All of t's frames were free at the start, and only they were taken or written since.
  ghost predicate Owns(f0: set<nat>, b0: set<nat>, mem0: seq<Frame>, t: Tables, f: set<nat>, b: set<nat>, mem: seq<Frame>) {
    Took(f0, b0, f, b, t.role.Keys) && SameExcept(mem0, mem, t.role.Keys)
  }

  lemma OwnsMore(f0: set<nat>, b0: set<nat>, mem0: seq<Frame>, t1: Tables, f1: set<nat>, b1: set<nat>, mem1: seq<Frame>,
                 t2: Tables, f2: set<nat>, b2: set<nat>, mem2: seq<Frame>)
    requires Owns(f0, b0, mem0, t1, f1, b1, mem1) && Added(t1, f1, b1, mem1, t2, f2, b2, mem2)
    ensures Owns(f0, b0, mem0, t2, f2, b2, mem2)
  {
    assert t2.role.Keys == t1.role.Keys + (t2.role.Keys - t1.role.Keys);
  }

  /** MemorySet::new_bare. */
  method NewBare(m: Machine) returns (r: Option<MemorySet>)
    requires m.Valid()
    modifies m
    ensures m.Valid()
    ensures r.None? ==> m.Free() == {}
    ensures r.None? ==> old(m.Count()) == 0
    ensures old(m.Count()) <= m.Count() + 1
    ensures old(m.recycled) != [] ==> m.recycled == old(m.recycled)[..|old(m.recycled)| - 1]
    ensures r.Some? ==>
              && fresh(r.value) && fresh(r.value.pt) && r.value.pt.m == m
              && r.value.Ok() && r.value.areas == [] && r.value.fixed == map[] && r.value.pt.Map() == map[]
              && Owns(old(m.Free()), old(m.Busy()), old(m.mem), r.value.pt.t, m.Free(), m.Busy(), m.mem)
  {
    hide TreeOk, TableOf, SpaceOk;
    m.FreeAndBusy();
    var frame := m.FrameAlloc();
    if frame.None? {
      return None;
    }
    var pt := new PageTable(m, frame.value);
    var s := new MemorySet(pt);
    r := Some(s);
  }

  /** map_trampoline: one fixed entry, to the page of the kernel's trampoline code. */
  method MapTrampoline(s: MemorySet, ppn: nat) returns (ok: bool)
    requires s.Ok() && ppn < PPN_LIMIT && Key(TRAMPOLINE_VPN) !in s.pt.Map()
    modifies s, s.pt, s.pt.m
    ensures s.pt.Valid() && (!ok ==> s.pt.m.Free() == {})
    ensures ok ==> s.Ok() && s.areas == old(s.areas)
    ensures ok ==> s.fixed == old(s.fixed)[Key(TRAMPOLINE_VPN) := Pte(ppn, R + X + V)]
    ensures ok ==> Added(old(s.pt.t), old(s.pt.m.Free()), old(s.pt.m.Busy()), old(s.pt.m.mem),
                         s.pt.t, s.pt.m.Free(), s.pt.m.Busy(), s.pt.m.mem)
  {
    hide TreeOk, TableOf, Key, SpaceOk, Pte, PageTable.Valid, Machine.Valid, Machine.Free, Machine.Busy, PageTable.Map;
    ghost var m, t, f, b, mem := s.pt.Map(), s.pt.t, s.pt.m.Free(), s.pt.m.Busy(), s.pt.m.mem;
    var r := s.pt.MapPage(TRAMPOLINE_VPN, ppn, R + X);
    if r.None? {
      return false;
    }
    SpaceExtends(m, t, s.pt.t, s.areas, s.fixed, f);
    AddFixed(m, s.pt.t, s.areas, s.fixed, Key(TRAMPOLINE_VPN), Pte(ppn, R + X + V));
    TablesAdded(t, f, b, mem, s.pt.t, s.pt.m.Free(), s.pt.m.Busy(), s.pt.m.mem);
    s.fixed := s.fixed[Key(TRAMPOLINE_VPN) := Pte(ppn, R + X + V)];
    ok := true;
  }

  lemma TablesAdded(t: Tables, f: set<nat>, b: set<nat>, mem: seq<Frame>,
                    t': Tables, f': set<nat>, b': set<nat>, mem': seq<Frame>)
    requires Extends(t, t', f) && Took(f, b, f', b', t'.role.Keys - t.role.Keys) && SameExcept(mem, mem', TableFrames(t'))
    ensures Added(t, f, b, mem, t', f', b', mem')
  {
    assert TableFrames(t') <= t'.role.Keys;
  }

  // ----- the copy

  // b covers the pages of a with the same permission, in frames of its own.
  ghost predicate Twin(a: MapArea, b: MapArea) {
    b == a.(frames := b.frames)
  }

  ghost predicate Twins(xs: seq<MapArea>, ys: seq<MapArea>) {
    |xs| == |ys| && forall i :: 0 <= i < |xs| ==> Twin(xs[i], ys[i])
  }

  // Each page of b below hi holds in mem the words that the same page of a holds in mem0.
  ghost predicate SamePages(mem0: seq<Frame>, mem: seq<Frame>, a: MapArea, b: MapArea, hi: nat) {
    forall v: nat :: a.start <= v < hi ==>
      && v in a.frames && v in b.frames && a.frames[v] < |mem0| && b.frames[v] < |mem|
      && mem[b.frames[v]] == mem0[a.frames[v]]
  }

  ghost predicate Copied(mem0: seq<Frame>, mem: seq<Frame>, xs: seq<MapArea>, ys: seq<MapArea>, n: nat) {
    n <= |xs| && n <= |ys| && forall i :: 0 <= i < n ==> SamePages(mem0, mem, xs[i], ys[i], xs[i].end)
  }

  // The frame behind page v of area i.
  lemma PageFrame(m: map<nat, nat>, t: Tables, areas: seq<MapArea>, fixed: map<nat, nat>, i: nat, v: nat)
    requires SpaceOk(m, t, areas, fixed) && i < |areas| && areas[i].kind.Framed? && Within(areas[i], v)
    ensures v in areas[i].frames && areas[i].frames[v] in t.role && t.role[areas[i].frames[v]] == Data(v)
    ensures Key(v) in m
    ensures areas[i].frames[v] < PPN_LIMIT ==> PpnOf(m[Key(v)]) == areas[i].frames[v]
  {
    assert AreaOk(m, t, areas[i]) && PageOk(m, t, areas[i], v);
    if areas[i].frames[v] < PPN_LIMIT { PteRoundTrip(areas[i].frames[v], areas[i].perm + V); }
  }

  /** The inner loop of from_existed_user: one page. */
  method CopyPage(user: MemorySet, child: MemorySet, i: nat, v: nat)
    requires user.Ok() && child.Ok() && user.pt.m == child.pt.m
    requires user.pt.t.role.Keys !! child.pt.t.role.Keys
    requires i < |user.areas| && i < |child.areas|
    requires user.areas[i].kind.Framed? && child.areas[i].kind.Framed?
    requires Within(user.areas[i], v) && Within(child.areas[i], v)
    modifies user.pt.m`mem
    ensures user.Ok() && child.Ok() && user.pt.Map() == old(user.pt.Map()) && child.pt.Map() == old(child.pt.Map())
    ensures v in user.areas[i].frames && v in child.areas[i].frames
    ensures var src, dst := user.areas[i].frames[v], child.areas[i].frames[v];
            && src < |old(user.pt.m.mem)| && dst < |old(user.pt.m.mem)|
            && dst in child.pt.t.role && child.pt.t.role[dst] == Data(v)
            && user.pt.m.mem == old(user.pt.m.mem)[dst := old(user.pt.m.mem)[src]]
    ensures user.pt.m.Free() == old(user.pt.m.Free()) && user.pt.m.Busy() == old(user.pt.m.Busy())
  {
    hide TreeOk, TableOf, Key, SpaceOk, PpnOf, Machine.Valid, Machine.Free, Machine.Busy, PageTable.Trackers;
    var m := user.pt.m;
    user.pt.Facts();
    child.pt.Facts();
    PageFrame(user.pt.Map(), user.pt.t, user.areas, user.fixed, i, v);
    PageFrame(child.pt.Map(), child.pt.t, child.areas, child.fixed, i, v);
    ghost var p, q := user.areas[i].frames[v], child.areas[i].frames[v];
    assert p in m.Free() + m.Busy() && q in m.Free() + m.Busy();
    var src := user.pt.Translate(v);
    var dst := child.pt.Translate(v);
    ghost var mem0 := m.mem;
    m.CopyFrame(dst, src);
    assert SameOn(mem0, m.mem, TableFrames(user.pt.t));
    assert SameOn(mem0, m.mem, TableFrames(child.pt.t));
    user.pt.StaysValid(mem0);
    child.pt.StaysValid(mem0);
  }

  /** The loop over the pages of one area. */
  method CopyArea(user: MemorySet, child: MemorySet, i: nat)
    requires user.Ok() && child.Ok() && user.pt.m == child.pt.m
    requires user.pt.t.role.Keys !! child.pt.t.role.Keys
    requires i < |user.areas| && i < |child.areas| && Twin(user.areas[i], child.areas[i]) && user.areas[i].kind.Framed?
    modifies user.pt.m`mem
    ensures user.Ok() && child.Ok() && user.pt.Map() == old(user.pt.Map()) && child.pt.Map() == old(child.pt.Map())
    ensures SamePages(old(user.pt.m.mem), user.pt.m.mem, user.areas[i], child.areas[i], user.areas[i].end)
    ensures OnlyPages(old(user.pt.m.mem), user.pt.m.mem, child.pt.t, child.areas[i])
    ensures user.pt.m.Free() == old(user.pt.m.Free()) && user.pt.m.Busy() == old(user.pt.m.Busy())
  {
    hide Key, SpaceOk, PageTable.Valid, Machine.Valid, Machine.Free, Machine.Busy, PageTable.Map;
    var m, a, b := user.pt.m, user.areas[i], child.areas[i];
    assert a.start <= a.end by { AreaFacts(user.pt.Map(), user.pt.t, user.areas, i, user.fixed); }
    var v := a.start;
    while v < a.end
      invariant a.start <= v <= a.end
      invariant user.Ok() && child.Ok() && user.pt.Map() == old(user.pt.Map()) && child.pt.Map() == old(child.pt.Map())
      invariant SamePages(old(m.mem), m.mem, a, b, v)
      invariant OnlyPages(old(m.mem), m.mem, child.pt.t, b)
      invariant OwnedPages(child.pt.t, b, v)
      invariant m.Free() == old(m.Free()) && m.Busy() == old(m.Busy())
    {
      ghost var mem1 := m.mem;
      CopyPage(user, child, i, v);
      SourceIntact(user, child, i, v, old(m.mem), mem1);
      CopiedOne(old(m.mem), mem1, m.mem, child.pt.t, a, b, v);
      v := v + 1;
    }
  }

  // The pages of b below hi are data frames of the child.
  ghost predicate OwnedPages(t: Tables, b: MapArea, hi: nat) {
    forall v: nat :: b.start <= v < hi && v in b.frames ==> b.frames[v] in t.role && t.role[b.frames[v]] == Data(v)
  }

  // Only data frames that serve pages of b changed.
  ghost predicate OnlyPages(mem0: seq<Frame>, mem: seq<Frame>, t: Tables, b: MapArea) {
    && |mem| == |mem0|
    && forall p :: 0 <= p < |mem0| && !(p in t.role && t.role[p].Data? && Within(b, t.role[p].vpn)) ==> mem[p] == mem0[p]
  }

  // The parent's page still holds what it held at the start.
  lemma SourceIntact(user: MemorySet, child: MemorySet, i: nat, v: nat, mem0: seq<Frame>, mem1: seq<Frame>)
    requires user.Ok() && i < |user.areas| && i < |child.areas| && user.areas[i].kind.Framed? && Within(user.areas[i], v)
    requires user.pt.t.role.Keys !! child.pt.t.role.Keys
    requires OnlyPages(mem0, mem1, child.pt.t, child.areas[i])
    ensures v in user.areas[i].frames
    ensures user.areas[i].frames[v] < |mem0| ==> mem1[user.areas[i].frames[v]] == mem0[user.areas[i].frames[v]]
  {
    hide SpaceOk, PageTable.Valid;
    PageFrame(user.pt.Map(), user.pt.t, user.areas, user.fixed, i, v);
  }

  lemma CopiedOne(mem0: seq<Frame>, mem1: seq<Frame>, mem2: seq<Frame>, t: Tables, a: MapArea, b: MapArea, v: nat)
    requires SamePages(mem0, mem1, a, b, v) && OnlyPages(mem0, mem1, t, b) && OwnedPages(t, b, v) && Twin(a, b) && Within(a, v)
    requires v in a.frames && v in b.frames && a.frames[v] < |mem1| && b.frames[v] < |mem1|
    requires b.frames[v] in t.role && t.role[b.frames[v]] == Data(v)
    requires mem1[a.frames[v]] == mem0[a.frames[v]]
    requires mem2 == mem1[b.frames[v] := mem1[a.frames[v]]]
    ensures SamePages(mem0, mem2, a, b, v + 1) && OnlyPages(mem0, mem2, t, b) && OwnedPages(t, b, v + 1)
  {
  }

  // ----- the loop over the areas

  // The first i areas are copied; the parent is as it was.
  ghost predicate Partway(user: MemorySet, child: MemorySet, i: nat, pte: nat,
                          f0: set<nat>, b0: set<nat>, mem0: seq<Frame>)
    reads user, user.pt, user.pt.m, child, child.pt, child.pt.m
  {
    && user.Ok() && child.Ok() && child.pt.m == user.pt.m
    && i == |child.areas| <= |user.areas| && Twins(user.areas[..i], child.areas)
    && child.fixed == map[Key(TRAMPOLINE_VPN) := pte]
    && Copied(mem0, child.pt.m.mem, user.areas, child.areas, i)
    && user.pt.t.role.Keys <= b0 && f0 !! b0
    && Owns(f0, b0, mem0, child.pt.t, child.pt.m.Free(), child.pt.m.Busy(), child.pt.m.mem)
  }

  ghost predicate UserSpace(user: MemorySet)
    reads user
  {
    Key(TRAMPOLINE_VPN) in user.fixed && forall i :: 0 <= i < |user.areas| ==> user.areas[i].kind.Framed?
  }

  // Areas that are apart in the parent never conflict in the child.
  lemma NoConflictInChild(m: map<nat, nat>, t: Tables, areas: seq<MapArea>, fixed: map<nat, nat>, i: nat,
                          m': map<nat, nat>, t': Tables, ys: seq<MapArea>, k0: nat, pte: nat)
    requires SpaceOk(m, t, areas, fixed) && i < |areas| && k0 in fixed
    requires SpaceOk(m', t', ys, map[k0 := pte]) && Twins(areas[..i], ys)
    ensures NoConflict(m', areas[i].(frames := map[]))
  {
    forall k | k in m' ensures !HasKey(areas[i], k) {
      assert Covered(ys, map[k0 := pte], k);
      if k != k0 {
        var j :| 0 <= j < |ys| && HasKey(ys[j], k);
        var u: nat :| Within(ys[j], u) && Key(u) == k;
        assert Twin(areas[..i][j], ys[j]);
        assert Within(areas[j], u) && Apart(areas[j], areas[i]);
      }
    }
    assert forall v: nat :: Within(areas[i], v) ==> HasKey(areas[i], Key(v));
  }

  // Frames of the areas copied earlier keep their contents while area i is pushed and copied.
  lemma EarlierPagesKept(m: map<nat, nat>, t1: Tables, ys: seq<MapArea>, fixed: map<nat, nat>, xs: seq<MapArea>, i: nat,
                         mem0: seq<Frame>, mem1: seq<Frame>, mem2: seq<Frame>, mem3: seq<Frame>,
                         t2: Tables, c: MapArea, j: nat)
    requires SpaceOk(m, t1, ys, fixed) && j < i == |ys| < |xs| && ys[j].kind.Framed? && Twin(xs[j], ys[j])
    requires SamePages(mem0, mem1, xs[j], ys[j], xs[j].end)
    requires |mem1| == |mem2| && forall p :: p in t1.role && t1.role[p].Data? && p < |mem1| ==> mem2[p] == mem1[p]
    requires OnlyPages(mem2, mem3, t2, c) && (forall p :: p in t1.role ==> p in t2.role && t2.role[p] == t1.role[p])
    requires Apart(ys[j], c)
    ensures SamePages(mem0, mem3, xs[j], ys[j], xs[j].end)
  {
    var a, b := xs[j], ys[j];
    forall v: nat | a.start <= v < a.end
      ensures v in a.frames && v in b.frames && a.frames[v] < |mem0| && b.frames[v] < |mem3|
           && mem3[b.frames[v]] == mem0[a.frames[v]]
    {
      assert Within(b, v);
      PageFrame(m, t1, ys, fixed, j, v);
      assert !Within(c, v);
    }
  }

  // While the child takes frames, a space that owned none of them keeps its tables.
  lemma OthersKept(tu: Tables, t1: Tables, f1: set<nat>, b1: set<nat>, mem1: seq<Frame>,
                   t2: Tables, f2: set<nat>, b2: set<nat>, mem2: seq<Frame>)
    requires Added(t1, f1, b1, mem1, t2, f2, b2, mem2)
    requires tu.role.Keys <= b1 && tu.role.Keys !! t1.role.Keys && f1 !! b1
    ensures tu.role.Keys <= b2 && tu.role.Keys !! t2.role.Keys && SameOn(mem1, mem2, TableFrames(tu))
  {
    assert TableFrames(tu) <= tu.role.Keys;
  }

  // The pages of area i were copied from frames that still hold what they held at the start.
  lemma CopiedFromStart(m: map<nat, nat>, t: Tables, xs: seq<MapArea>, fixed: map<nat, nat>, i: nat, b: MapArea,
                        tc: Tables, mem0: seq<Frame>, mem2: seq<Frame>, mem3: seq<Frame>)
    requires SpaceOk(m, t, xs, fixed) && i < |xs| && xs[i].kind.Framed?
    requires t.role.Keys !! tc.role.Keys && SameExcept(mem0, mem2, tc.role.Keys)
    requires SamePages(mem2, mem3, xs[i], b, xs[i].end)
    ensures SamePages(mem0, mem3, xs[i], b, xs[i].end)
  {
    forall v: nat | xs[i].start <= v < xs[i].end
      ensures v in xs[i].frames && xs[i].frames[v] < |mem0| ==> mem2[xs[i].frames[v]] == mem0[xs[i].frames[v]]
    {
      assert Within(xs[i], v);
      PageFrame(m, t, xs, fixed, i, v);
    }
  }

  lemma CopiedMore(mem0: seq<Frame>, mem1: seq<Frame>, mem2: seq<Frame>, mem3: seq<Frame>,
                   xs: seq<MapArea>, ys: seq<MapArea>, zs: seq<MapArea>,
                   m1: map<nat, nat>, t1: Tables, fixed: map<nat, nat>, m2: map<nat, nat>, t2: Tables, i: nat)
    requires SpaceOk(m1, t1, ys, fixed) && SpaceOk(m2, t2, zs, fixed)
    requires i == |ys| < |xs| && |zs| == i + 1 && zs[..i] == ys && Twins(xs[..i], ys) && Twin(xs[i], zs[i])
    requires forall j :: 0 <= j < |xs| ==> xs[j].kind.Framed?
    requires Copied(mem0, mem1, xs, ys, i) && SamePages(mem0, mem3, xs[i], zs[i], xs[i].end)
    requires |mem1| == |mem2| && forall p :: p in t1.role && t1.role[p].Data? && p < |mem1| ==> mem2[p] == mem1[p]
    requires OnlyPages(mem2, mem3, t2, zs[i]) && (forall p :: p in t1.role ==> p in t2.role && t2.role[p] == t1.role[p])
    ensures Copied(mem0, mem3, xs, zs, i + 1) && Twins(xs[..i + 1], zs)
  {
    hide SpaceOk, OnlyPages, SamePages;
    forall j | 0 <= j < i
      ensures SamePages(mem0, mem3, xs[j], zs[j], xs[j].end) && Twin(xs[..i + 1][j], zs[j])
    {
      assert zs[j] == zs[..i][j] == ys[j] && Twin(xs[..i][j], ys[j]) && xs[..i][j] == xs[j];
      AreasApart(m2, t2, zs, fixed, j, i);
      EarlierPagesKept(m1, t1, ys, fixed, xs, i, mem0, mem1, mem2, mem3, t2, zs[i], j);
    }
  }

  lemma AreasApart(m: map<nat, nat>, t: Tables, zs: seq<MapArea>, fixed: map<nat, nat>, j: nat, i: nat)
    requires SpaceOk(m, t, zs, fixed) && j < i < |zs|
    ensures Apart(zs[j], zs[i])
  {
  }

  lemma OwnsWritten(f0: set<nat>, b0: set<nat>, mem0: seq<Frame>, t: Tables, f: set<nat>, b: set<nat>,
                    mem2: seq<Frame>, mem3: seq<Frame>, c: MapArea)
    requires Owns(f0, b0, mem0, t, f, b, mem2) && OnlyPages(mem2, mem3, t, c)
    ensures Owns(f0, b0, mem0, t, f, b, mem3)
  {
  }

  lemma AddedFacts(t1: Tables, f1: set<nat>, b1: set<nat>, mem1: seq<Frame>,
                   t2: Tables, f2: set<nat>, b2: set<nat>, mem2: seq<Frame>)
    requires Added(t1, f1, b1, mem1, t2, f2, b2, mem2)
    ensures |mem1| == |mem2| && forall p :: p in t1.role && t1.role[p].Data? && p < |mem1| ==> mem2[p] == mem1[p]
    ensures forall p :: p in t1.role ==> p in t2.role && t2.role[p] == t1.role[p]
  {
  }

  /** MapArea::from_another, then push: an area like the parent's, over new frames. */
  method PushTwin(user: MemorySet, child: MemorySet, i: nat, ghost k0: nat, ghost pte: nat) returns (ok: bool)
    requires user.Ok() && child.Ok() && child.pt.m == user.pt.m && user != child && user.pt != child.pt
    requires user.pt.t.role.Keys !! child.pt.t.role.Keys
    requires i == |child.areas| < |user.areas| && Twins(user.areas[..i], child.areas) && user.areas[i].kind.Framed?
    requires k0 in user.fixed && child.fixed == map[k0 := pte]
    modifies child, child.pt, user.pt.m
    ensures user.pt.m.Valid() && (!ok ==> user.pt.m.Free() == {})
    ensures ok ==> |child.areas| == i + 1 && child.areas[..i] == old(child.areas) && Twin(user.areas[i], child.areas[i])
    ensures ok ==> child.fixed == old(child.fixed) && user.pt.t.role.Keys !! child.pt.t.role.Keys
    ensures ok ==> user.Ok() && user.pt.Map() == old(user.pt.Map()) && child.Ok()
    ensures ok ==> Added(old(child.pt.t), old(user.pt.m.Free()), old(user.pt.m.Busy()), old(user.pt.m.mem),
                         child.pt.t, user.pt.m.Free(), user.pt.m.Busy(), user.pt.m.mem)
  {
    hide Key, SpaceOk, PageTable.Valid, Machine.Valid, Machine.Free, Machine.Busy, PageTable.Map, Added, KeysAfter;
    hide NoConflict, TreeOk, TableOf, TableFrames, SameOn, PageTable.Trackers, Within, Twins;
    var m := user.pt.m;
    ghost var t1, f1, b1, mem1 := child.pt.t, m.Free(), m.Busy(), m.mem;
    user.pt.Facts();
    NoConflictInChild(user.pt.Map(), user.pt.t, user.areas, user.fixed, i, child.pt.Map(), t1, child.areas, k0, pte);
    AreaFacts(user.pt.Map(), user.pt.t, user.areas, i, user.fixed);
    var r := child.Push(user.areas[i].(frames := map[]));
    child.pt.Facts();
    if r.None? {
      return false;
    }
    OthersKept(user.pt.t, t1, f1, b1, mem1, child.pt.t, m.Free(), m.Busy(), m.mem);
    user.pt.StaysValid(mem1);
    ok := true;
  }

  /** One turn of from_existed_user's loop: push a twin of area i, then copy its pages. */
  method ForkArea(user: MemorySet, child: MemorySet, i: nat, ghost pte: nat,
                  ghost f0: set<nat>, ghost b0: set<nat>, ghost mem0: seq<Frame>) returns (ok: bool)
    requires Partway(user, child, i, pte, f0, b0, mem0) && i < |user.areas| && UserSpace(user)
    requires user != child && user.pt != child.pt
    modifies child, child.pt, user.pt.m
    ensures user.pt.m.Valid()
    ensures !ok ==> user.pt.m.Free() == {}
    ensures ok ==> Partway(user, child, i + 1, pte, f0, b0, mem0) && user.pt.Map() == old(user.pt.Map())
  {
    hide Key, SpaceOk, PageTable.Valid, Machine.Valid, Machine.Free, Machine.Busy, PageTable.Map, Added, Copied;
    hide OnlyPages, SamePages, Twins;
    var m := user.pt.m;
    ghost var m1, t1, ys := child.pt.Map(), child.pt.t, child.areas;
    ghost var f1, b1, mem1 := m.Free(), m.Busy(), m.mem;
    ok := PushTwin(user, child, i, Key(TRAMPOLINE_VPN), pte);
    if !ok {
      return;
    }
    ghost var mem2, t2 := m.mem, child.pt.t;
    OwnsMore(f0, b0, mem0, t1, f1, b1, mem1, t2, m.Free(), m.Busy(), mem2);
    CopyArea(user, child, i);
    AddedFacts(t1, f1, b1, mem1, t2, m.Free(), m.Busy(), mem2);
    OwnsWritten(f0, b0, mem0, t2, m.Free(), m.Busy(), mem2, m.mem, child.areas[i]);
    CopiedFromStart(user.pt.Map(), user.pt.t, user.areas, user.fixed, i, child.areas[i], t2, mem0, mem2, m.mem);
    CopiedMore(mem0, mem1, mem2, m.mem, user.areas, ys, child.areas, m1, t1, child.fixed, child.pt.Map(), t2, i);
    user.pt.Facts();
  }

  /**
   from_existed_user: a new space whose areas are those of the parent, page for page the same
   words in frames of its own; the parent and its pages are as before.
   */
  method FromExistedUser(user: MemorySet, trampoline: nat) returns (r: Option<MemorySet>)
    requires user.Ok() && UserSpace(user) && trampoline < PPN_LIMIT
    modifies user.pt.m
    ensures user.pt.m.Valid()
    ensures r.None? ==> user.pt.m.Free() == {}
    ensures r.Some? ==>
              && user.Ok() && user.pt.Map() == old(user.pt.Map())
              && fresh(r.value) && fresh(r.value.pt) && r.value.Ok() && r.value.pt.m == user.pt.m
              && Twins(user.areas, r.value.areas)
              && r.value.fixed == map[Key(TRAMPOLINE_VPN) := Pte(trampoline, R + X + V)]
              && Copied(old(user.pt.m.mem), user.pt.m.mem, user.areas, r.value.areas, |user.areas|)
              && Owns(old(user.pt.m.Free()), old(user.pt.m.Busy()), old(user.pt.m.mem),
                      r.value.pt.t, user.pt.m.Free(), user.pt.m.Busy(), user.pt.m.mem)
  {
    hide Key, SpaceOk, PageTable.Valid, Machine.Valid, Machine.Free, Machine.Busy, PageTable.Map, Added, Copied, Owns;
    hide TreeOk, TableOf, TableFrames, SameOn, PageTable.Trackers, Pte;
    var m := user.pt.m;
    ghost var f0, b0, mem0, mU := m.Free(), m.Busy(), m.mem, user.pt.Map();
    ghost var pte := Pte(trampoline, R + X + V);
    user.pt.Facts();
    var bare := NewBare(m);
    if bare.None? {
      return None;
    }
    var child := bare.value;
    ghost var t1, f1, b1, mem1 := child.pt.t, m.Free(), m.Busy(), m.mem;
    var mapped := MapTrampoline(child, trampoline);
    child.pt.Facts();
    if !mapped {
      return None;
    }
    OwnsMore(f0, b0, mem0, t1, f1, b1, mem1, child.pt.t, m.Free(), m.Busy(), m.mem);
    OwnsOthers(user.pt.t, f0, b0, mem0, child.pt.t, m.Free(), m.Busy(), m.mem);
    user.pt.StaysValid(mem0);
    NothingCopied(mem0, m.mem, user.areas, child.areas);
    var i := 0;
    while i < |user.areas|
      invariant 0 <= i <= |user.areas|
      invariant Partway(user, child, i, pte, f0, b0, mem0) && user.pt.Map() == mU
    {
      var ok := ForkArea(user, child, i, pte, f0, b0, mem0);
      if !ok {
        return None;
      }
      i := i + 1;
    }
    assert user.areas[..i] == user.areas;
    user.pt.Facts();
    r := Some(child);
  }

  lemma OwnsOthers(tu: Tables, f0: set<nat>, b0: set<nat>, mem0: seq<Frame>, t: Tables, f: set<nat>, b: set<nat>, mem: seq<Frame>)
    requires Owns(f0, b0, mem0, t, f, b, mem) && tu.role.Keys <= b0 && f0 !! b0
    ensures tu.role.Keys <= b && SameOn(mem0, mem, TableFrames(tu))
  {
    assert TableFrames(tu) <= tu.role.Keys;
  }

  lemma NothingCopied(mem0: seq<Frame>, mem: seq<Frame>, xs: seq<MapArea>, ys: seq<MapArea>)
    ensures Copied(mem0, mem, xs, ys, 0)
  {
  }
}
