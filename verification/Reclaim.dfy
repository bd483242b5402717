/** How the frames of a process come back: recycle_data_pages at exit, the page table at reaping. */
module Reclaims {
  import opened Pages
  import opened Frames
  import opened PageTables
  import opened Spaces
  import opened MemorySets
  import opened AddressSpaces
  import opened Views

  // Area j still has all its trackers.
  ghost predicate Tracked(t: Tables, a: MapArea) {
    a.start <= a.end && MemorySets.Trackers(t, a.frames, a.start, a.end)
  }

  lemma AllTracked(m: map<nat, nat>, t: Tables, areas: seq<MapArea>, fixed: map<nat, nat>)
    requires SpaceOk(m, t, areas, fixed) && AllFramed(areas)
    ensures forall j :: 0 <= j < |areas| ==> Tracked(t, areas[j])
  {
    forall j, v: nat | 0 <= j < |areas| && areas[j].start <= v < areas[j].end
      ensures v in areas[j].frames && areas[j].frames[v] in t.role && t.role[areas[j].frames[v]] == Data(v)
    {
      assert AreaOk(m, t, areas[j]) && Within(areas[j], v);
      assert PageOk(m, t, areas[j], v);
    }
    forall j | 0 <= j < |areas| ensures areas[j].start <= areas[j].end { assert AreaOk(m, t, areas[j]); }
  }

  // Dropping area i's frames leaves those of the areas after it.
  lemma StillTracked(t: Tables, t': Tables, a: MapArea, b: MapArea)
    requires Tracked(t, a) && Tracked(t, b) && Apart(a, b)
    requires t' == t.(role := t.role - FrameSet(a.frames, a.start, a.end))
    ensures Tracked(t', b)
  {
    forall v: nat | b.start <= v < b.end
      ensures v in b.frames && b.frames[v] in t'.role && t'.role[b.frames[v]] == Data(v)
    {
      assert Within(b, v) && !Within(a, v);
    }
  }

  // The data frames left are those that the areas from i on hold.
  ghost predicate LeftFor(t0: Tables, t: Tables, areas: seq<MapArea>, i: nat) {
    && i <= |areas| && t == t0.(role := t.role)
    && (forall p :: p in t.role ==> p in t0.role && t.role[p] == t0.role[p])
    && (forall p :: p in t0.role && !t0.role[p].Data? ==> p in t.role)
    && (forall p :: p in t.role && t.role[p].Data? ==> HoldsFrame(areas[i..], p, t.role[p].vpn))
  }

  lemma LeftForNext(t0: Tables, t: Tables, t': Tables, areas: seq<MapArea>, i: nat)
    requires LeftFor(t0, t, areas, i) && i < |areas| && Tracked(t, areas[i])
    requires forall v: nat :: v in areas[i].frames ==> Within(areas[i], v)
    requires t' == t.(role := t.role - FrameSet(areas[i].frames, areas[i].start, areas[i].end))
    ensures LeftFor(t0, t', areas, i + 1)
  {
    forall p | p in t'.role && t'.role[p].Data? ensures HoldsFrame(areas[i + 1..], p, t'.role[p].vpn) {
      var v := t.role[p].vpn;
      var rest := areas[i..];
      var j :| 0 <= j < |rest| && rest[j].kind.Framed? && v in rest[j].frames && rest[j].frames[v] == p;
      assert rest[0] == areas[i];
      assert areas[i + 1..] == rest[1..];
      assert rest[1..][j - 1] == rest[j];
    }
  }

  /** recycle_data_pages: the areas are cleared, and every tracker they held returns its frame. */
  method RecycleDataPages(s: MemorySet)
    requires s.Ok() && AllFramed(s.areas)
    modifies s, s.pt`t, s.pt.m`recycled
    ensures s.pt.Valid() && s.areas == [] && s.pt.m.mem == old(s.pt.m.mem)
    ensures s.pt.t.role.Keys == TableFrames(s.pt.t) == TableFrames(old(s.pt.t))
    ensures s.pt.m.Free() == old(s.pt.m.Free()) + (old(s.pt.t).role.Keys - s.pt.t.role.Keys)
    ensures s.pt.m.Busy() == old(s.pt.m.Busy()) - (old(s.pt.t).role.Keys - s.pt.t.role.Keys)
  {
    hide SpaceOk, PageTable.Valid, Machine.Valid, Machine.Free, Machine.Busy, PageTable.Map, FrameSet, Apart;
    hide Tracked, LeftFor, MemorySets.Trackers, TableFrames;
    var pt, areas := s.pt, s.areas;
    ghost var t0, f0, b0 := pt.t, pt.m.Free(), pt.m.Busy();
    AllTracked(pt.Map(), t0, areas, s.fixed);
    SpacePieces(pt.Map(), t0, areas, s.fixed);
    assert t0.role.Keys - t0.role.Keys == {};
    var i := 0;
    while i < |areas|
      invariant 0 <= i <= |areas| && s.areas == areas
      invariant pt.Valid() && pt.m.mem == old(pt.m.mem)
      invariant forall j :: i <= j < |areas| ==> Tracked(pt.t, areas[j])
      invariant LeftFor(t0, pt.t, areas, i)
      invariant pt.m.Free() == f0 + (t0.role.Keys - pt.t.role.Keys)
      invariant pt.m.Busy() == b0 - (t0.role.Keys - pt.t.role.Keys)
    {
      ghost var t1, a := pt.t, areas[i];
      TrackedFacts(t0, t1, areas, i);
      DropTrackers(areas[i].frames, areas[i].start, areas[i].end, pt);
      forall j | i < j < |areas| ensures Tracked(pt.t, areas[j]) {
        StillTracked(t1, pt.t, a, areas[j]);
      }
      LeftForNext(t0, t1, pt.t, areas, i);
      i := i + 1;
    }
    s.areas := [];
    NothingLeft(t0, pt.t, areas);
  }

  lemma SpacePieces(m: map<nat, nat>, t: Tables, areas: seq<MapArea>, fixed: map<nat, nat>)
    requires SpaceOk(m, t, areas, fixed) && AllFramed(areas)
    ensures forall i, j :: 0 <= i < j < |areas| ==> Apart(areas[i], areas[j])
    ensures LeftFor(t, t, areas, 0)
    ensures forall i, v: nat :: 0 <= i < |areas| && v in areas[i].frames ==> Within(areas[i], v)
  {
    assert areas[0..] == areas;
    forall i | 0 <= i < |areas| ensures Shape(areas[i]) { assert AreaOk(m, t, areas[i]); }
  }

  lemma TrackedFacts(t0: Tables, t: Tables, areas: seq<MapArea>, i: nat)
    requires i < |areas| && Tracked(t, areas[i]) && LeftFor(t0, t, areas, i)
    ensures areas[i].start <= areas[i].end && MemorySets.Trackers(t, areas[i].frames, areas[i].start, areas[i].end)
    ensures FrameSet(areas[i].frames, areas[i].start, areas[i].end) <= t.role.Keys <= t0.role.Keys
  {
  }

  lemma NothingLeft(t0: Tables, t: Tables, areas: seq<MapArea>)
    requires LeftFor(t0, t, areas, |areas|)
    ensures t.role.Keys == TableFrames(t) == TableFrames(t0)
  {
    assert areas[|areas|..] == [];
    assert TableFrames(t) == TableFrames(t0);
  }

  /** Drop of PageTable: each tracker in frames returns its frame. */
  method DropTables(pt: PageTable)
    requires pt.Valid()
    modifies pt.m`recycled
    ensures pt.m.Valid() && pt.m.mem == old(pt.m.mem)
    ensures pt.m.Free() == old(pt.m.Free()) + TableFrames(pt.t)
    ensures pt.m.Busy() == old(pt.m.Busy()) - TableFrames(pt.t)
  {
    hide Machine.Valid, Machine.Free, Machine.Busy, TreeOk, TableOf;
    var frames, i := pt.frames, 0;
    assert TableFrames(pt.t) <= pt.m.Busy();
    while i < |frames|
      invariant 0 <= i <= |frames| && pt.m.Valid() && pt.m.mem == old(pt.m.mem)
      invariant pt.m.Free() == old(pt.m.Free()) + (set p | p in frames[..i])
      invariant pt.m.Busy() == old(pt.m.Busy()) - (set p | p in frames[..i])
    {
      assert frames[i] !in frames[..i] && frames[i] in frames;
      pt.m.FrameDealloc(frames[i]);
      assert frames[..i + 1] == frames[..i] + [frames[i]];
      i := i + 1;
    }
    assert frames[..i] == frames;
    assert (set p | p in frames) == TableFrames(pt.t);
  }
}
