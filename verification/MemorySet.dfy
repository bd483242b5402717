/** MemorySet: areas inserted, removed and copied over one page table. */
module AddressSpaces {
  import opened Basics
  import opened Pages
  import opened Frames
  import opened PageTables
  import opened Spaces
  import opened MemorySets

  // MapArea::new(start_va, end_va, Framed, perm).
  function NewArea(startVa: nat, endVa: nat, perm: nat): MapArea
    requires 0 < endVa
  {
    MapArea(Floor(startVa), Ceil(endVa), map[], Framed, perm)
  }

  ghost predicate NoConflict(m: map<nat, nat>, a: MapArea) {
    forall v: nat :: Within(a, v) ==> Key(v) !in m
  }

  // Every address of the range is mapped.
  ghost predicate MapsAll(m: map<nat, nat>, startVa: nat, endVa: nat) {
    forall va: nat :: startVa <= va < endVa ==> Key(Floor(va)) in m
  }

  // None is.
  ghost predicate MapsNone(m: map<nat, nat>, startVa: nat, endVa: nat) {
    forall va: nat :: startVa <= va < endVa ==> Key(Floor(va)) !in m
  }

  // Page k holds an address of the range.
  ghost predicate KeyHeld(startVa: nat, endVa: nat, k: nat) {
    exists va: nat :: startVa <= va < endVa && Key(Floor(va)) == k
  }

  // An insertion in terms of addresses.
  lemma InsertedAddresses(m: map<nat, nat>, m': map<nat, nat>, startVa: nat, endVa: nat, perm: nat)
    requires 0 < endVa && KeysAfter(m, m', NewArea(startVa, endVa, perm), Ceil(endVa))
    ensures MapsAll(m', startVa, endVa)
    ensures startVa < endVa ==> forall k :: k in m' && k !in m ==> KeyHeld(startVa, endVa, k)
  {
    hide Key, Floor, Ceil;
    if startVa < endVa {
      RangePages(startVa, endVa);
      forall k | k in m' && k !in m ensures KeyHeld(startVa, endVa, k) {
        var v: nat :| Floor(startVa) <= v < Ceil(endVa) && Key(v) == k;
        assert HoldsSome(startVa, endVa, v);
        var va: nat :| startVa <= va < endVa && Floor(va) == v;
      }
    }
  }

  // A removal in terms of addresses: area a lies inside the pages of the range.
  lemma RemovedAddresses(m: map<nat, nat>, m': map<nat, nat>, a: MapArea, startVa: nat, endVa: nat)
    requires startVa < endVa && Removed(m, m', a, a.end) && a.start <= a.end
    requires Floor(startVa) <= a.start && a.end <= Ceil(endVa)
    ensures forall v: nat :: Within(a, v) ==> HoldsSome(startVa, endVa, v)
    ensures a.end - a.start == Ceil(endVa) - Floor(startVa) <==> forall va: nat :: startVa <= va < endVa ==> Within(a, Floor(va))
    ensures a.end - a.start == Ceil(endVa) - Floor(startVa) ==> MapsNone(m', startVa, endVa)
  {
    RangePages(startVa, endVa);
    hide Key, Floor, Ceil;
    var lo, hi := Floor(startVa), Ceil(endVa);
    if forall va: nat :: startVa <= va < endVa ==> Within(a, Floor(va)) {
      assert HoldsSome(startVa, endVa, lo) && HoldsSome(startVa, endVa, hi - 1);
    }
  }

  class MemorySet {
    const pt: PageTable
    var areas: seq<MapArea>
    // Entries mapped outside the areas: the trampoline.
    ghost var fixed: map<nat, nat>

    ghost predicate Ok()
      reads this, pt, pt.m
    {
      pt.Valid() && SpaceOk(pt.Map(), pt.t, areas, fixed)
    }

    /** new_bare over a new page table. */
    constructor (pt: PageTable)
      requires pt.Valid() && pt.Map() == map[] && (forall p :: p in pt.t.role ==> !pt.t.role[p].Data?)
      ensures this.pt == pt && areas == [] && fixed == map[] && Ok()
    {
      this.pt := pt;
      areas := [];
      fixed := map[];
    }

    /**
     push of a new framed area. Without a conflict every page gets a frame. With one, pages before
     the first mapped page stay in the page table while their frames are freed: the set is intact
     after a refusal exactly when the very first page was the one already mapped.
     */
    method Push(a: MapArea) returns (r: Option<int>)
      requires Ok()
      requires a.kind.Framed? && a.frames == map[] && a.start <= a.end <= a.start + KEY_LIMIT && PermOk(a.perm)
      modifies this, pt, pt.m
      ensures pt.Valid() && fixed == old(fixed)
      ensures r.None? ==> pt.m.Free() == {} && old(pt.m.Count()) <= 3 * (a.end - a.start)
      ensures r.Some? ==> old(pt.m.Count()) <= pt.m.Count() + 3 * (a.end - a.start)
      ensures r.Some? ==> (r.value == 0 <==> NoConflict(old(pt.Map()), a)) && (r.value == 0 || r.value == -1)
      ensures r == Some(0) ==>
                && Ok() && |areas| == |old(areas)| + 1 && areas[..|old(areas)|] == old(areas)
                && areas[|old(areas)|] == a.(frames := areas[|old(areas)|].frames)
                && KeysAfter(old(pt.Map()), pt.Map(), a, a.end)
                && Added(old(pt.t), old(pt.m.Free()), old(pt.m.Busy()), old(pt.m.mem),
                         pt.t, pt.m.Free(), pt.m.Busy(), pt.m.mem)
      ensures r == Some(-1) ==> areas == old(areas)
      ensures r == Some(-1) ==> (Ok() <==> Key(a.start) in old(pt.Map()))
      ensures r == Some(-1) && Key(a.start) !in old(pt.Map()) ==>
                Key(a.start) in pt.Map() && PpnOf(pt.Map()[Key(a.start)]) in pt.m.Free()
      ensures r == Some(-1) && Key(a.start) in old(pt.Map()) ==> pt.Map() == old(pt.Map())
      ensures r == Some(-1) ==> Undone(old(pt.t), old(pt.m.Free()), old(pt.m.Busy()), old(pt.m.mem),
                                       pt.t, pt.m.Free(), pt.m.Busy(), pt.m.mem)
      ensures r == Some(-1) && Key(a.start) !in old(pt.Map()) && Key(a.start + 1) in old(pt.Map()) ==>
                |pt.m.recycled| >= 2 && PpnOf(pt.Map()[Key(a.start)]) == pt.m.recycled[|pt.m.recycled| - 2]
      ensures r == Some(0) && a.start < a.end ==>
                && a.start in areas[|old(areas)|].frames
                && OnTop(old(pt.m.recycled), areas[|old(areas)|].frames[a.start])
    {
      hide Key, Pte, Added, SpaceOk, KeysAfter, PageTable.Valid, PageTable.Map;
      hide Machine.Valid, Machine.Free, Machine.Busy, Machine.Count;
      hide Halfway, Undone, FrameSet, OnTop, TreeOk, TableOf, PageTable.Trackers, PpnOf, Covered;
      pt.Facts();
      ghost var t0, f0, b0, mem0 := pt.t, pt.m.Free(), pt.m.Busy(), pt.m.mem;
      EmptyAreaOk(pt.Map(), pt.t, areas, fixed, Partial(a, a.start, map[]));
      var frames, stop;
      r, frames, stop := MapFramed(a, pt, areas, fixed);
      pt.Facts();
      pt.m.NoneLeft();
      if r.None? {
        return;
      }
      if r.value == 0 {
        areas := areas + [a.(frames := frames)];
      } else {
        CoveredExactly(old(pt.Map()), old(pt.t), areas, fixed);
        FirstPageConflict(old(pt.Map()), a, stop);
        HalfwayUndone(t0, f0, b0, mem0, pt.t, pt.m.Free(), pt.m.Busy(), pt.m.mem, frames, a.start, stop);
        Refuse(a, frames, stop, old(pt.Map()));
      }
    }

    /** The -1 path of push: the local area is dropped, and with it its frame trackers. */
    method Refuse(a: MapArea, frames: map<nat, nat>, stop: nat, ghost m0: map<nat, nat>)
      requires a.kind.Framed? && a.start <= stop < a.start + KEY_LIMIT && PermOk(a.perm)
      requires stop in frames && Building(pt, areas, fixed, Partial(a, stop, frames - {stop}))
      requires frames[stop] !in pt.t.role && frames[stop] in pt.m.Busy()
      requires Unmapped(m0, a, stop) && Key(stop) in m0
      requires forall k :: Covered(areas, fixed, k) <==> k in m0
      modifies pt`t, pt.m`recycled
      ensures pt.Valid()
      ensures Ok() <==> Key(a.start) in m0
      ensures pt.Map() == old(pt.Map()) && pt.m.mem == old(pt.m.mem)
      ensures pt.t == old(pt.t).(role := old(pt.t).role - FrameSet(frames, a.start, stop))
      ensures pt.m.Free() == old(pt.m.Free()) + FrameSet(frames, a.start, stop) + {frames[stop]}
      ensures pt.m.Busy() == old(pt.m.Busy()) - FrameSet(frames, a.start, stop) - {frames[stop]}
      ensures Key(a.start) !in m0 ==> Key(a.start) in pt.Map() && PpnOf(pt.Map()[Key(a.start)]) in pt.m.Free()
      ensures pt.m.Count() >= old(pt.m.Count())
      ensures stop == a.start + 1 ==>
                |pt.m.recycled| >= 2 && PpnOf(pt.Map()[Key(a.start)]) == pt.m.recycled[|pt.m.recycled| - 2]
    {
      hide Key, SpaceOk, Covered, PageTable.Valid, Machine.Valid, Machine.Free, Machine.Busy, PpnOf, FrameSet, InOrder;
      hide PageTable.Map, Trackers;
      ghost var m, t, done := pt.Map(), pt.t, Partial(a, stop, frames - {stop});
      FramesFit(pt);
      PartialFacts(m, t, areas, done, fixed, frames, stop);
      DropTrackers(frames, a.start, stop, pt);
      Return(frames[stop]);
      Verdict(m, t, areas, done, fixed, frames, stop, m0);
      if stop == a.start + 1 { OneTracker(frames, a.start); }
    }

    // The frame that map_one took for the refused page.
    method Return(p: nat)
      requires pt.Valid() && p in pt.m.Busy() && p !in pt.t.role
      modifies pt.m`recycled
      ensures pt.Valid() && pt.Map() == old(pt.Map()) && pt.m.recycled == old(pt.m.recycled) + [p]
      ensures pt.m.Free() == old(pt.m.Free()) + {p} && pt.m.Busy() == old(pt.m.Busy()) - {p}
    {
      hide TreeOk, TableOf, TableFrames, Machine.Valid, Machine.Free, Machine.Busy;
      pt.m.FrameDealloc(p);
    }

    /** insert_framed_area. */
    method InsertFramedArea(startVa: nat, endVa: nat, perm: nat) returns (r: Option<int>)
      requires Ok() && PermOk(perm)
      requires 0 < endVa && Floor(startVa) <= Ceil(endVa) <= Floor(startVa) + KEY_LIMIT
      modifies this, pt, pt.m
      ensures pt.Valid() && fixed == old(fixed)
      ensures r.None? ==> pt.m.Free() == {} && old(pt.m.Count()) <= 3 * (Ceil(endVa) - Floor(startVa))
      ensures var a := NewArea(startVa, endVa, perm);
              && (r.Some? ==> (r.value == 0 <==> NoConflict(old(pt.Map()), a)) && (r.value == 0 || r.value == -1))
              && (r == Some(0) ==>
                    && Ok() && |areas| == |old(areas)| + 1 && areas[..|old(areas)|] == old(areas)
                    && areas[|old(areas)|] == a.(frames := areas[|old(areas)|].frames)
                    && KeysAfter(old(pt.Map()), pt.Map(), a, a.end)
                    && Added(old(pt.t), old(pt.m.Free()), old(pt.m.Busy()), old(pt.m.mem),
                             pt.t, pt.m.Free(), pt.m.Busy(), pt.m.mem))
              && (r == Some(-1) ==> areas == old(areas) && (Ok() <==> Key(a.start) in old(pt.Map())))
              && (r == Some(-1) && Key(a.start) !in old(pt.Map()) ==>
                    Key(a.start) in pt.Map() && PpnOf(pt.Map()[Key(a.start)]) in pt.m.Free())
              && (r == Some(-1) && Key(a.start) in old(pt.Map()) ==> pt.Map() == old(pt.Map()))
              && (r == Some(-1) ==> Undone(old(pt.t), old(pt.m.Free()), old(pt.m.Busy()), old(pt.m.mem),
                                           pt.t, pt.m.Free(), pt.m.Busy(), pt.m.mem))
      ensures r == Some(0) ==> MapsAll(pt.Map(), startVa, endVa)
      ensures r == Some(0) && startVa < endVa ==>
                forall k :: k in pt.Map() && k !in old(pt.Map()) ==> KeyHeld(startVa, endVa, k)
    {
      hide Key, PpnOf, Added, SpaceOk, KeysAfter, PageTable.Valid, Machine.Free, Machine.Busy, PageTable.Map;
      hide MapsAll, KeyHeld;
      r := Push(NewArea(startVa, endVa, perm));
      if r == Some(0) { InsertedAddresses(old(pt.Map()), pt.Map(), startVa, endVa, perm); }
    }

    /** remove_framed_area: takes out the first area that lies inside the range. */
    method RemoveFramedArea(startVa: nat, endVa: nat) returns (r: int)
      requires Ok() && 0 < endVa && Floor(startVa) <= Ceil(endVa)
      modifies this, pt, pt.m
      ensures Ok() && fixed == old(fixed)
      ensures var lo, hi := Floor(startVa), Ceil(endVa);
              var i := Inside(old(areas), lo, hi, 0);
              && (i == |old(areas)| ==>
                    && areas == old(areas) && pt.Map() == old(pt.Map()) && pt.t == old(pt.t)
                    && pt.m.Free() == old(pt.m.Free()) && pt.m.Busy() == old(pt.m.Busy())
                    && pt.m.mem == old(pt.m.mem) && (r == 0 <==> lo == hi))
              && (i < |old(areas)| ==>
                    var a := old(areas)[i];
                    && areas == old(areas)[..i] + old(areas)[i + 1..]
                    && Removed(old(pt.Map()), pt.Map(), a, a.end)
                    && pt.t == old(pt.t).(role := old(pt.t).role - FrameSet(a.frames, a.start, a.end))
                    && pt.m.Free() == old(pt.m.Free()) + FrameSet(a.frames, a.start, a.end)
                    && pt.m.Busy() == old(pt.m.Busy()) - FrameSet(a.frames, a.start, a.end)
                    && SameExcept(old(pt.m.mem), pt.m.mem, TableFrames(old(pt.t)))
                    && (r == 0 <==> a.end - a.start == hi - lo))
      ensures r == 0 || r == -1
      ensures startVa < endVa ==>
                var i := Inside(old(areas), Floor(startVa), Ceil(endVa), 0);
                && (r == 0 ==> i < |old(areas)| && MapsNone(pt.Map(), startVa, endVa))
                && (i < |old(areas)| ==>
                      var a := old(areas)[i];
                      && (forall v: nat :: Within(a, v) ==> HoldsSome(startVa, endVa, v))
                      && (r == 0 <==> forall va: nat :: startVa <= va < endVa ==> Within(a, Floor(va))))
    {
      hide Key, SpaceOk, Removed, PageTable.Valid, Machine.Free, Machine.Busy, PageTable.Map, SameExcept, TableFrames, FrameSet;
      hide MapsNone, HoldsSome;
      var lo, hi := Floor(startVa), Ceil(endVa);
      var i, len := 0, 0;
      while i < |areas| && !(lo <= areas[i].start && areas[i].end <= hi)
        invariant 0 <= i <= |areas| && Inside(areas, lo, hi, 0) == Inside(areas, lo, hi, i)
      {
        i := i + 1;
      }
      if i < |areas| {
        assert areas[i].start <= areas[i].end by { AreaFacts(pt.Map(), pt.t, areas, i, fixed); }
        len := areas[i].end - areas[i].start;
        ghost var m, a := pt.Map(), areas[i];
        UnmapArea(areas, i, pt, fixed);
        if startVa < endVa { RemovedAddresses(m, pt.Map(), a, startVa, endVa); }
        areas := areas[..i] + areas[i + 1..];
      }
      if startVa < endVa { RangePages(startVa, endVa); }
      r := if len == hi - lo then 0 else -1;
    }
  }

  // The first page that conflicts is the first page exactly when that one was mapped.
  lemma FirstPageConflict(m: map<nat, nat>, a: MapArea, stop: nat)
    requires a.start <= stop && Unmapped(m, a, stop) && Key(stop) in m
    ensures stop == a.start <==> Key(a.start) in m
  {
  }

  lemma FramesFit(pt: PageTable)
    requires pt.Valid()
    ensures forall p :: p in pt.t.role ==> p < PPN_LIMIT
  {
    hide PageTable.Valid, Machine.Free, Machine.Busy;
    pt.Facts();
    assert forall p :: p in pt.t.role ==> p in pt.m.Free() + pt.m.Busy();
  }

  // What the space is like once the frames of the refused area are gone.
  lemma Verdict(m: map<nat, nat>, t: Tables, rest: seq<MapArea>, done: MapArea, fixed: map<nat, nat>,
                frames: map<nat, nat>, stop: nat, m0: map<nat, nat>)
    requires SpaceOk(m, t, rest + [done], fixed) && done.kind.Framed? && done.end == stop && done.start <= stop
    requires stop in frames && done.frames == frames - {stop} && forall p :: p in t.role ==> p < PPN_LIMIT
    requires Unmapped(m0, done, stop) && Key(stop) in m0 && forall k :: Covered(rest, fixed, k) <==> k in m0
    ensures var t' := t.(role := t.role - FrameSet(frames, done.start, stop));
            SpaceOk(m, t', rest, fixed) <==> Key(done.start) in m0
    ensures stop == done.start <==> Key(done.start) in m0
    ensures Key(done.start) !in m0 ==>
              && Key(done.start) in m && done.start in frames && PpnOf(m[Key(done.start)]) == frames[done.start]
              && frames[done.start] in FrameSet(frames, done.start, stop)
  {
    hide Key, SpaceOk, PpnOf, Covered;
    FirstPageConflict(m0, done, stop);
    var t' := t.(role := t.role - FrameSet(frames, done.start, stop));
    if stop == done.start {
      NoFrames(frames, stop, t);
      EmptyPartial(m, t, rest, done, fixed, t', frames, stop);
    } else {
      StaleEntry(m, t, rest, done, fixed, t', m0);
    }
  }

  lemma NoFrames(frames: map<nat, nat>, v: nat, t: Tables)
    ensures FrameSet(frames, v, v) == {} && t.(role := t.role - {}) == t
  {
    assert t.role - {} == t.role;
  }

  // The first area at or after i that lies inside [lo, hi).
  function Inside(areas: seq<MapArea>, lo: nat, hi: nat, i: nat): (r: nat)
    requires i <= |areas|
    ensures i <= r <= |areas|
    ensures forall j :: i <= j < r ==> !(lo <= areas[j].start && areas[j].end <= hi)
    ensures r < |areas| ==> lo <= areas[r].start && areas[r].end <= hi
    decreases |areas| - i
  {
    if i == |areas| || (lo <= areas[i].start && areas[i].end <= hi) then i else Inside(areas, lo, hi, i + 1)
  }

  // In an intact space the mapped keys are exactly the covered ones.
  lemma CoveredExactly(m: map<nat, nat>, t: Tables, areas: seq<MapArea>, fixed: map<nat, nat>)
    requires SpaceOk(m, t, areas, fixed)
    ensures forall k :: Covered(areas, fixed, k) <==> k in m
  {
    forall k | Covered(areas, fixed, k) ensures k in m {
      if k !in fixed {
        var i :| 0 <= i < |areas| && HasKey(areas[i], k);
        var v: nat :| Within(areas[i], v) && Key(v) == k;
        assert AreaOk(m, t, areas[i]) && PageOk(m, t, areas[i], v);
      }
    }
  }

  // The pages done before the refusal have trackers, and their frames are in use.
  lemma PartialFacts(m: map<nat, nat>, t: Tables, rest: seq<MapArea>, done: MapArea, fixed: map<nat, nat>,
                     frames: map<nat, nat>, stop: nat)
    requires SpaceOk(m, t, rest + [done], fixed) && done.kind.Framed? && done.end == stop
    requires stop in frames && done.frames == frames - {stop} && frames[stop] !in t.role
    ensures Trackers(t, frames, done.start, stop)
    ensures forall p :: p in FrameSet(frames, done.start, stop) ==> p in t.role
    ensures frames[stop] !in FrameSet(frames, done.start, stop)
  {
    assert AreaOk(m, t, (rest + [done])[|rest|]);
    forall v: nat | done.start <= v < stop
      ensures v in frames && frames[v] in t.role && t.role[frames[v]] == Data(v)
    {
      assert Within(done, v) && PageOk(m, t, done, v);
    }
  }

  // Nothing was done: without the empty area the space is as before.
  lemma EmptyPartial(m: map<nat, nat>, t: Tables, rest: seq<MapArea>, done: MapArea, fixed: map<nat, nat>,
                     t': Tables, frames: map<nat, nat>, stop: nat)
    requires SpaceOk(m, t, rest + [done], fixed) && done.start == done.end
    requires t' == t.(role := t.role - FrameSet(frames, done.start, done.start))
    ensures SpaceOk(m, t', rest, fixed)
  {
    DropEmpty(m, t, rest + [done], |rest|, fixed);
    assert (rest + [done])[..|rest|] + (rest + [done])[|rest| + 1..] == rest;
    assert t.role - FrameSet(frames, done.start, done.start) == t.role;
  }

  // Something was done: its first entry now leads to a frame that the space gave up.
  lemma StaleEntry(m: map<nat, nat>, t: Tables, rest: seq<MapArea>, done: MapArea, fixed: map<nat, nat>,
                   t': Tables, m0: map<nat, nat>)
    requires SpaceOk(m, t, rest + [done], fixed) && done.start < done.end && done.kind.Framed?
    requires Key(done.start) !in m0 && forall k :: Covered(rest, fixed, k) <==> k in m0
    requires forall p :: p in t.role && t.role[p].Data? ==> p < PPN_LIMIT
    ensures Key(done.start) in m && done.start in done.frames
    ensures PpnOf(m[Key(done.start)]) == done.frames[done.start]
    ensures !SpaceOk(m, t', rest, fixed)
  {
    assert AreaOk(m, t, (rest + [done])[|rest|]);
    assert Within(done, done.start) && PageOk(m, t, done, done.start);
    PteRoundTrip(done.frames[done.start], done.perm + V);
    assert !Covered(rest, fixed, Key(done.start));
  }

  // ----- inserting an area and removing it again

  // Every area has a page.
  ghost predicate NonEmpty(areas: seq<MapArea>) {
    forall i :: 0 <= i < |areas| ==> areas[i].start < areas[i].end
  }

  // Only the new area lies inside its own range.
  lemma OnlyNewInside(m: map<nat, nat>, t: Tables, areas: seq<MapArea>, fixed: map<nat, nat>, a: MapArea)
    requires SpaceOk(m, t, areas, fixed) && NonEmpty(areas) && NoConflict(m, a)
    ensures Inside(areas + [a], a.start, a.end, 0) == |areas|
  {
    hide SpaceOk, Inside;
    forall i | 0 <= i < |areas| ensures !(a.start <= areas[i].start && areas[i].end <= a.end) {
      AreaFacts(m, t, areas, i, fixed);
      assert !Within(a, areas[i].start);
    }
    assert forall j :: 0 <= j < |areas| ==> (areas + [a])[j] == areas[j];
    assert (areas + [a])[|areas|] == a;
  }

  // The areas and the fixed entries determine every entry.
  lemma SameEntries(m: map<nat, nat>, t: Tables, m': map<nat, nat>, t': Tables, areas: seq<MapArea>, a: MapArea,
                    fixed: map<nat, nat>, k: nat)
    requires SpaceOk(m, t, areas, fixed) && SpaceOk(m', t', areas + [a], fixed) && k in m
    ensures k in m' && m'[k] == m[k]
  {
    assert Covered(areas, fixed, k);
    if k !in fixed {
      var i :| 0 <= i < |areas| && HasKey(areas[i], k);
      var v: nat :| Within(areas[i], v) && Key(v) == k;
      assert (areas + [a])[i] == areas[i];
      assert AreaOk(m, t, areas[i]) && PageOk(m, t, areas[i], v);
      assert AreaOk(m', t', (areas + [a])[i]) && PageOk(m', t', areas[i], v);
    }
  }

  lemma MapRestored(m0: map<nat, nat>, t0: Tables, m1: map<nat, nat>, t1: Tables, m2: map<nat, nat>,
                    areas: seq<MapArea>, a: MapArea, fixed: map<nat, nat>)
    requires SpaceOk(m0, t0, areas, fixed) && SpaceOk(m1, t1, areas + [a], fixed)
    requires NoConflict(m0, a) && KeysAfter(m0, m1, a, a.end) && Removed(m1, m2, a, a.end)
    ensures m2 == m0
  {
    forall k ensures k in m2 <==> k in m0 {
      if k in m0 {
        forall v: nat | a.start <= v < a.end ensures Key(v) != k { assert Within(a, v); }
      }
    }
    forall k | k in m0 ensures m2[k] == m0[k] {
      SameEntries(m0, t0, m1, t1, areas, a, fixed, k);
    }
  }

  // The frames the round trip keeps are new tables; the data frames all go back.
  lemma FramesRestored(m0: map<nat, nat>, t0: Tables, m1: map<nat, nat>, t1: Tables, t2: Tables,
                       areas: seq<MapArea>, a: MapArea, fixed: map<nat, nat>, f0: set<nat>)
    requires SpaceOk(m0, t0, areas, fixed) && SpaceOk(m1, t1, areas + [a], fixed) && NoConflict(m0, a) && a.kind.Framed?
    requires Keeps(t0, t1, f0)
    requires t2 == t1.(role := t1.role - FrameSet(a.frames, a.start, a.end)) && SpaceOk(m0, t2, areas, fixed)
    ensures t0.role.Keys <= t2.role.Keys
    ensures forall p :: p in t2.role && p !in t0.role ==> !t2.role[p].Data?
    ensures FrameSet(a.frames, a.start, a.end) <= t1.role.Keys - t0.role.Keys
  {
    var gone := FrameSet(a.frames, a.start, a.end);
    forall p | p in gone ensures p in t1.role && p !in t0.role { TakenFrame(m0, t0, m1, t1, areas, a, fixed, f0, p); }
    forall p | p in t2.role && t2.role[p].Data? ensures p in t0.role {
      var v := t2.role[p].vpn;
      assert HoldsFrame(areas, p, v);
      HeldIsOwned(m0, t0, areas, fixed, p, v);
    }
  }

  lemma TakenFrame(m0: map<nat, nat>, t0: Tables, m1: map<nat, nat>, t1: Tables,
                   areas: seq<MapArea>, a: MapArea, fixed: map<nat, nat>, f0: set<nat>, p: nat)
    requires SpaceOk(m0, t0, areas, fixed) && SpaceOk(m1, t1, areas + [a], fixed) && NoConflict(m0, a) && a.kind.Framed?
    requires Keeps(t0, t1, f0) && p in FrameSet(a.frames, a.start, a.end)
    ensures p in t1.role && p !in t0.role
  {
    var v: nat :| a.start <= v < a.end && v in a.frames && a.frames[v] == p;
    assert t1.role[p] == Data(v) && p in t1.role by {
      assert AreaOk(m1, t1, (areas + [a])[|areas|]) && Within(a, v);
      assert PageOk(m1, t1, a, v);
    }
    assert Within(a, v) && Key(v) !in m0;
    DataIsMapped(m0, t0, areas, fixed);
  }

  // The page of a data frame is mapped.
  lemma DataIsMapped(m: map<nat, nat>, t: Tables, areas: seq<MapArea>, fixed: map<nat, nat>)
    requires SpaceOk(m, t, areas, fixed)
    ensures forall p :: p in t.role && t.role[p].Data? ==> Key(t.role[p].vpn) in m
  {
    forall p | p in t.role && t.role[p].Data? ensures Key(t.role[p].vpn) in m {
      var v := t.role[p].vpn;
      assert HoldsFrame(areas, p, v);
      var i :| 0 <= i < |areas| && areas[i].kind.Framed? && v in areas[i].frames && areas[i].frames[v] == p;
      assert AreaOk(m, t, areas[i]) && Within(areas[i], v);
      assert PageOk(m, t, areas[i], v);
    }
  }

  lemma HeldIsOwned(m: map<nat, nat>, t: Tables, areas: seq<MapArea>, fixed: map<nat, nat>, p: nat, v: nat)
    requires SpaceOk(m, t, areas, fixed) && HoldsFrame(areas, p, v)
    ensures p in t.role && t.role[p] == Data(v)
  {
    var i :| 0 <= i < |areas| && areas[i].kind.Framed? && v in areas[i].frames && areas[i].frames[v] == p;
    assert AreaOk(m, t, areas[i]) && Within(areas[i], v);
    assert PageOk(m, t, areas[i], v);
  }

  /** insert_framed_area, then remove_framed_area of the same range. */
  method InsertThenRemove(s: MemorySet, startVa: nat, endVa: nat, perm: nat) returns (ok: bool, r1: int, r2: int)
    requires s.Ok() && PermOk(perm) && NonEmpty(s.areas)
    requires 0 < endVa && Floor(startVa) < Ceil(endVa) <= Floor(startVa) + KEY_LIMIT
    requires NoConflict(s.pt.Map(), NewArea(startVa, endVa, perm))
    modifies s, s.pt, s.pt.m
    ensures ok || s.pt.m.Free() == {}
    ensures ok ==> r1 == 0 && r2 == 0 && s.Ok() && s.areas == old(s.areas) && s.pt.Map() == old(s.pt.Map())
    ensures ok ==> forall p :: p in s.pt.t.role && p !in old(s.pt.t).role ==> !s.pt.t.role[p].Data?
    ensures ok ==> s.pt.m.Free() == old(s.pt.m.Free()) - (s.pt.t.role.Keys - old(s.pt.t).role.Keys)
  {
    hide Key, SpaceOk, Removed, KeysAfter, PageTable.Valid, Machine.Valid, Machine.Free, Machine.Busy, PageTable.Map;
    hide FrameSet, NoConflict, Floor, Ceil, Keeps, SameExcept, TableFrames, NonEmpty;
    ghost var m0, t0, f0 := s.pt.Map(), s.pt.t, s.pt.m.Free();
    var r := s.InsertFramedArea(startVa, endVa, perm);
    r1, r2 := 0, 0;
    if r.None? {
      return false, 0, 0;
    }
    r1 := r.value;
    ghost var n := |old(s.areas)|;
    ghost var m1, t1, f1, a := s.pt.Map(), s.pt.t, s.pt.m.Free(), s.areas[n];
    assert s.areas == old(s.areas) + [a];
    SameRange(m0, NewArea(startVa, endVa, perm), a, m1);
    OnlyNewInside(m0, t0, old(s.areas), s.fixed, a);
    r2 := s.RemoveFramedArea(startVa, endVa);
    assert (old(s.areas) + [a])[..n] + (old(s.areas) + [a])[n + 1..] == old(s.areas);
    MapRestored(m0, t0, m1, t1, s.pt.Map(), old(s.areas), a, s.fixed);
    FramesRestored(m0, t0, m1, t1, s.pt.t, old(s.areas), a, s.fixed, f0);
    ok := true;
  }

  lemma SameRange(m: map<nat, nat>, a: MapArea, b: MapArea, m': map<nat, nat>)
    requires b == a.(frames := b.frames)
    ensures NoConflict(m, a) ==> NoConflict(m, b)
    ensures KeysAfter(m, m', a, a.end) ==> KeysAfter(m, m', b, b.end)
  {
    assert forall v: nat :: Within(b, v) ==> Within(a, v);
  }
}
