/** From frames to private memories: what each operation on a space does to the pages seen through it. */
module Views {
  import opened Pages
  import opened PageTables
  import opened Spaces
  import opened MemorySets
  import opened AddressSpaces
  import opened Forks
  import PM = PrivateMemories

  ghost function WordsAt(mem: seq<Frame>, p: nat): Frame {
    if p < |mem| then mem[p] else ZeroFrame()
  }

  // The pages a process sees: those of its areas, with their contents and flags.
  ghost function View(m: map<nat, nat>, fixed: map<nat, nat>, mem: seq<Frame>): map<nat, PM.Page> {
    map k | k in m && k !in fixed :: PM.Page(WordsAt(mem, PpnOf(m[k])), FlagsOf(m[k]))
  }

  ghost function RegionsOf(areas: seq<MapArea>): (r: seq<PM.Region>)
    ensures |r| == |areas|
    ensures forall i :: 0 <= i < |areas| ==> r[i] == PM.Region(areas[i].start, areas[i].end, areas[i].perm)
  {
    seq(|areas|, i requires 0 <= i < |areas| => PM.Region(areas[i].start, areas[i].end, areas[i].perm))
  }

  ghost predicate AllFramed(areas: seq<MapArea>) {
    forall i :: 0 <= i < |areas| ==> areas[i].kind.Framed?
  }

  ghost predicate Fits(t: Tables, mem: seq<Frame>) {
    |mem| <= PPN_LIMIT && forall p :: p in t.role ==> p < |mem|
  }

  // The page behind a key that is not fixed, and its frame.
  lemma KeyPage(m: map<nat, nat>, t: Tables, areas: seq<MapArea>, fixed: map<nat, nat>, mem: seq<Frame>, k: nat)
    returns (i: nat, v: nat)
    requires SpaceOk(m, t, areas, fixed) && AllFramed(areas) && Fits(t, mem) && k in m && k !in fixed
    ensures i < |areas| && Within(areas[i], v) && Key(v) == k && v in areas[i].frames
    ensures var p := areas[i].frames[v];
            && p in t.role && t.role[p] == Data(v) && p < |mem|
            && PpnOf(m[k]) == p && FlagsOf(m[k]) == areas[i].perm + V
  {
    assert Covered(areas, fixed, k);
    i :| 0 <= i < |areas| && HasKey(areas[i], k);
    v :| Within(areas[i], v) && Key(v) == k;
    assert AreaOk(m, t, areas[i]) && PageOk(m, t, areas[i], v);
    PteRoundTrip(areas[i].frames[v], areas[i].perm + V);
  }

  // The frames behind the pages keep their words, so the pages do.
  lemma ViewKept(m: map<nat, nat>, t: Tables, areas: seq<MapArea>, fixed: map<nat, nat>, mem: seq<Frame>, mem': seq<Frame>)
    requires SpaceOk(m, t, areas, fixed) && AllFramed(areas) && Fits(t, mem)
    requires |mem'| == |mem| && forall p :: p in t.role && t.role[p].Data? ==> mem'[p] == mem[p]
    ensures View(m, fixed, mem') == View(m, fixed, mem)
  {
    hide SpaceOk;
    forall k | k in m && k !in fixed ensures WordsAt(mem', PpnOf(m[k])) == WordsAt(mem, PpnOf(m[k])) {
      var i, v := KeyPage(m, t, areas, fixed, mem, k);
    }
  }

  // A conflict-free insertion adds zeroed pages.
  lemma ViewInserted(m0: map<nat, nat>, t0: Tables, f0: set<nat>, b0: set<nat>, mem0: seq<Frame>,
                     m1: map<nat, nat>, t1: Tables, f1: set<nat>, b1: set<nat>, mem1: seq<Frame>,
                     areas: seq<MapArea>, a: MapArea, fixed: map<nat, nat>)
    requires SpaceOk(m0, t0, areas, fixed) && SpaceOk(m1, t1, areas + [a], fixed) && NoConflict(m0, a)
    requires AllFramed(areas) && a.kind.Framed? && Fits(t0, mem0) && Fits(t1, mem1)
    requires KeysAfter(m0, m1, a, a.end) && Added(t0, f0, b0, mem0, t1, f1, b1, mem1)
    ensures View(m1, fixed, mem1) == View(m0, fixed, mem0) + PM.Zeroed(a.start, a.end, a.perm)
  {
    hide SpaceOk, NoConflict, KeysAfter, View, PM.InRange, PM.Zeroed, FlagsOf, PpnOf;
    KeysOfInsert(m0, m1, a);
    forall k | k in m0 && k !in fixed
      ensures k in m1 && m1[k] == m0[k] && WordsAt(mem1, PpnOf(m1[k])) == WordsAt(mem0, PpnOf(m0[k]))
    {
      SameEntries(m0, t0, m1, t1, areas, a, fixed, k);
      var i, v := KeyPage(m0, t0, areas, fixed, mem0, k);
    }
    forall k | k in m1 && k !in m0
      ensures k !in fixed && PM.Page(WordsAt(mem1, PpnOf(m1[k])), FlagsOf(m1[k])) == PM.Page(ZeroFrame(), a.perm + V)
    {
      NewPage(m0, t0, f0, b0, mem0, m1, t1, f1, b1, mem1, areas, a, fixed, k);
    }
    FixedIsMapped(m0, t0, areas, fixed);
    ViewSum(m0, mem0, m1, mem1, fixed, a.start, a.end, a.perm);
  }

  lemma ViewSum(m0: map<nat, nat>, mem0: seq<Frame>, m1: map<nat, nat>, mem1: seq<Frame>, fixed: map<nat, nat>,
                lo: nat, hi: nat, perm: nat)
    requires forall k :: k in m1 <==> k in m0 || (0 <= k < KEY_LIMIT && PM.InRange(lo, hi, k))
    requires forall k :: k in m0 ==> !PM.InRange(lo, hi, k)
    requires forall k :: k in fixed ==> k in m0
    requires forall k :: k in m0 && k !in fixed ==>
               k in m1 && m1[k] == m0[k] && WordsAt(mem1, PpnOf(m1[k])) == WordsAt(mem0, PpnOf(m0[k]))
    requires forall k :: k in m1 && k !in m0 ==>
               PM.Page(WordsAt(mem1, PpnOf(m1[k])), FlagsOf(m1[k])) == PM.Page(ZeroFrame(), perm + V)
    ensures View(m1, fixed, mem1) == View(m0, fixed, mem0) + PM.Zeroed(lo, hi, perm)
  {
    hide PM.InRange, PpnOf, FlagsOf, WordsAt;
  }

  lemma FixedIsMapped(m: map<nat, nat>, t: Tables, areas: seq<MapArea>, fixed: map<nat, nat>)
    requires SpaceOk(m, t, areas, fixed)
    ensures forall k :: k in fixed ==> k in m
  {
  }

  lemma KeysOfInsert(m0: map<nat, nat>, m1: map<nat, nat>, a: MapArea)
    requires NoConflict(m0, a) && KeysAfter(m0, m1, a, a.end)
    ensures forall k :: k in m1 <==> k in m0 || (0 <= k < KEY_LIMIT && PM.InRange(a.start, a.end, k))
    ensures forall k :: k in m0 ==> !PM.InRange(a.start, a.end, k)
  {
    forall k: nat | PM.InRange(a.start, a.end, k) ensures k !in m0 && k < KEY_LIMIT {
      var v: nat :| a.start <= v < a.end && Key(v) == k;
      assert Within(a, v);
    }
  }

  lemma NewPage(m0: map<nat, nat>, t0: Tables, f0: set<nat>, b0: set<nat>, mem0: seq<Frame>,
                m1: map<nat, nat>, t1: Tables, f1: set<nat>, b1: set<nat>, mem1: seq<Frame>,
                areas: seq<MapArea>, a: MapArea, fixed: map<nat, nat>, k: nat)
    requires SpaceOk(m0, t0, areas, fixed) && SpaceOk(m1, t1, areas + [a], fixed) && NoConflict(m0, a)
    requires AllFramed(areas) && a.kind.Framed? && Fits(t1, mem1)
    requires KeysAfter(m0, m1, a, a.end) && Added(t0, f0, b0, mem0, t1, f1, b1, mem1)
    requires k in m1 && k !in m0
    ensures k !in fixed && WordsAt(mem1, PpnOf(m1[k])) == ZeroFrame() && FlagsOf(m1[k]) == a.perm + V
  {
    hide SpaceOk, NoConflict, KeysAfter;
    FixedIsMapped(m0, t0, areas, fixed);
    KeysOfInsert(m0, m1, a);
    var v: nat :| a.start <= v < a.end && Key(v) == k;
    NewFrame(m1, t1, areas, a, fixed, v);
    PteRoundTrip(a.frames[v], a.perm + V);
    TakenFrame(m0, t0, m1, t1, areas, a, fixed, f0, a.frames[v]);
  }

  lemma NewFrame(m1: map<nat, nat>, t1: Tables, areas: seq<MapArea>, a: MapArea, fixed: map<nat, nat>, v: nat)
    requires SpaceOk(m1, t1, areas + [a], fixed) && a.kind.Framed? && a.start <= v < a.end
    ensures v in a.frames && a.frames[v] in t1.role && t1.role[a.frames[v]] == Data(v) && PermOk(a.perm)
    ensures Key(v) in m1 && m1[Key(v)] == Pte(a.frames[v], a.perm + V)
    ensures a.frames[v] in FrameSet(a.frames, a.start, a.end)
  {
    assert AreaOk(m1, t1, (areas + [a])[|areas|]) && Within(a, v);
    assert PageOk(m1, t1, a, v);
  }

  // Removing an area takes its pages and leaves the rest.
  lemma ViewRemoved(m0: map<nat, nat>, t0: Tables, mem0: seq<Frame>, m1: map<nat, nat>, mem1: seq<Frame>,
                    areas: seq<MapArea>, a: MapArea, fixed: map<nat, nat>)
    requires SpaceOk(m0, t0, areas, fixed) && AllFramed(areas) && Fits(t0, mem0)
    requires MemorySets.Removed(m0, m1, a, a.end) && SameExcept(mem0, mem1, TableFrames(t0))
    ensures View(m1, fixed, mem1) == View(m0, fixed, mem0) - PM.KeysOf(a.start, a.end)
  {
    hide SpaceOk;
    forall k | k in m1 ensures k < KEY_LIMIT ==> k !in PM.KeysOf(a.start, a.end) {
      assert !PM.InRange(a.start, a.end, k);
    }
    forall k | k in m0 && k !in PM.KeysOf(a.start, a.end) ensures k in m1 {
      assert PM.InRange(a.start, a.end, k) ==> 0 <= k < KEY_LIMIT;
    }
    forall k | k in m1 && k !in fixed ensures WordsAt(mem1, PpnOf(m1[k])) == WordsAt(mem0, PpnOf(m0[k])) {
      var i, v := KeyPage(m0, t0, areas, fixed, mem0, k);
    }
  }

  // The copy sees what the original saw.
  lemma ViewForked(m0: map<nat, nat>, t0: Tables, mem0: seq<Frame>, xs: seq<MapArea>, fixed: map<nat, nat>,
                   m1: map<nat, nat>, t1: Tables, mem1: seq<Frame>, ys: seq<MapArea>, fixed': map<nat, nat>)
    requires SpaceOk(m0, t0, xs, fixed) && AllFramed(xs) && Fits(t0, mem0)
    requires SpaceOk(m1, t1, ys, fixed') && Fits(t1, mem1) && fixed'.Keys == fixed.Keys
    requires Twins(xs, ys) && Copied(mem0, mem1, xs, ys, |xs|)
    ensures View(m1, fixed', mem1) == View(m0, fixed, mem0)
  {
    hide SpaceOk, Key;
    forall k | k in m0 && k !in fixed
      ensures k in m1 && FlagsOf(m1[k]) == FlagsOf(m0[k]) && WordsAt(mem1, PpnOf(m1[k])) == WordsAt(mem0, PpnOf(m0[k]))
    {
      var i, v := KeyPage(m0, t0, xs, fixed, mem0, k);
      TwinPage(m1, t1, mem1, ys, fixed', i, v);
      assert SamePages(mem0, mem1, xs[i], ys[i], xs[i].end);
    }
    forall k | k in m1 && k !in fixed' ensures k in m0 {
      var i, v := KeyPage(m1, t1, ys, fixed', mem1, k);
      assert Within(xs[i], v);
      PageFrame(m0, t0, xs, fixed, i, v);
    }
  }

  lemma TwinPage(m1: map<nat, nat>, t1: Tables, mem1: seq<Frame>, ys: seq<MapArea>, fixed: map<nat, nat>, i: nat, v: nat)
    requires SpaceOk(m1, t1, ys, fixed) && Fits(t1, mem1) && i < |ys| && ys[i].kind.Framed? && Within(ys[i], v)
    ensures Key(v) in m1 && v in ys[i].frames && PpnOf(m1[Key(v)]) == ys[i].frames[v] && FlagsOf(m1[Key(v)]) == ys[i].perm + V
  {
    assert AreaOk(m1, t1, ys[i]) && PageOk(m1, t1, ys[i], v);
    PteRoundTrip(ys[i].frames[v], ys[i].perm + V);
  }

  // A store through one page reaches that page alone: no frame serves two pages.
  lemma ViewStored(m: map<nat, nat>, t: Tables, areas: seq<MapArea>, fixed: map<nat, nat>, mem: seq<Frame>,
                   k: nat, x: nat, w: nat)
    requires SpaceOk(m, t, areas, fixed) && AllFramed(areas) && Fits(t, mem)
    requires k in m && k !in fixed && PpnOf(m[k]) < |mem| && x < 512
    ensures View(m, fixed, Poke(mem, PpnOf(m[k]), x, w)) == PM.Poked(View(m, fixed, mem), k, x, w)
    ensures PpnOf(m[k]) in t.role && t.role[PpnOf(m[k])].Data?
  {
    hide SpaceOk;
    var i, v := KeyPage(m, t, areas, fixed, mem, k);
    forall k' | k' in m && k' !in fixed && k' != k ensures PpnOf(m[k']) != PpnOf(m[k]) {
      var i', v' := KeyPage(m, t, areas, fixed, mem, k');
    }
  }

  lemma SameFirst(areas: seq<MapArea>, lo: nat, hi: nat)
    ensures PM.FirstIn(RegionsOf(areas), lo, hi) == Inside(areas, lo, hi, 0)
  {
    var r := RegionsOf(areas);
    assert forall j :: 0 <= j < |areas| ==> r[j].lo == areas[j].start && r[j].hi == areas[j].end;
  }
}
