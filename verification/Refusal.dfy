/** A refused insertion that leaves its mark: what becomes of the page it tore, on every run and at an input. */
module Refusals {
  import opened Basics
  import opened Pages
  import opened Frames
  import opened PageTables
  import opened Spaces
  import opened MemorySets
  import opened AddressSpaces
  import opened Forks
  import opened SpaceSteps
  import opened Worlds
  import PM = PrivateMemories

  const RW := R + W

  // A framed area that has no frames yet.
  function Fresh(start: nat, end: nat): MapArea { MapArea(start, end, map[], Framed, RW) }

  lemma NothingInTheWay()
    ensures NoConflict(map[], Fresh(1, 2))
  {
  }

  lemma SecondPageInTheWay(m: map<nat, nat>)
    requires KeysAfter(map[], m, Fresh(1, 2), 2)
    ensures !NoConflict(m, Fresh(0, 2)) && Key(0) !in m && Key(1) in m
  {
    assert Within(Fresh(0, 2), 1) && Key(1) in m;
  }

  /** A space of one page, page 1, on a machine with sixteen frames. */
  method OnePage() returns (s: MemorySet)
    ensures s.Ok() && fresh(s) && fresh(s.pt) && fresh(s.pt.m) && s.pt.m.Count() >= 12
    ensures !NoConflict(s.pt.Map(), Fresh(0, 2)) && Key(0) !in s.pt.Map() && Key(1) in s.pt.Map()
  {
    hide SpaceOk, TreeOk, TableOf, Key, PageTable.Valid, PageTable.Map, Added, Owns, Undone, KeysAfter, NoConflict;
    hide Machine.Valid, Machine.Busy, Machine.Free, Machine.Count;
    var m := new Machine(seq(16, i => ZeroFrame()), 0, 16);
    var made := NewBare(m);
    s := made.value;
    NothingInTheWay();
    var r := s.Push(Fresh(1, 2));
    SecondPageInTheWay(s.pt.Map());
  }

  /**
   Sixteen free frames, page 1 mapped, and then an area of the pages 0 and 1: the insertion is
   refused, and page 0 now leads to a frame that is free.
   */
  method TornArea() returns (s: MemorySet, r: Option<int>)
    ensures fresh(s) && fresh(s.pt) && fresh(s.pt.m) && r == Some(-1) && s.pt.Valid() && !s.Ok()
    ensures Key(0) in s.pt.Map() && PpnOf(s.pt.Map()[Key(0)]) in s.pt.m.Free()
    ensures s.pt.m.Count() >= 6 && |s.pt.m.recycled| >= 2
    ensures PpnOf(s.pt.Map()[Key(0)]) == s.pt.m.recycled[|s.pt.m.recycled| - 2]
  {
    hide SpaceOk, TreeOk, TableOf, Key, PageTable.Valid, PageTable.Map, Added, Undone, KeysAfter, NoConflict;
    hide Machine.Valid, Machine.Busy, Machine.Free, Machine.Count;
    s := OnePage();
    r := s.Push(Fresh(0, 2));
  }

  // What another space did to frames of its own left these tables alone.
  lemma Undisturbed(pt: PageTable, mem: seq<Frame>, own: set<nat>, m0: map<nat, nat>)
    requires pt.m.Valid() && pt.root == pt.t.root && TreeOk(mem, pt.t) && pt.Trackers() && pt.t.role.Keys <= pt.m.Busy()
    requires SameExcept(mem, pt.m.mem, own) && own !! pt.t.role.Keys && m0 == TableOf(mem, pt.t)
    ensures pt.Valid() && pt.Map() == m0
  {
    hide Machine.Valid, Machine.Busy, TreeOk, TableOf, PageTable.Trackers;
    pt.StaysValid(mem);
  }

  // The first page of the only area is mapped to its frame.
  lemma FirstFrame(s: MemorySet)
    requires s.Ok() && |s.areas| == 1 && s.areas[0].kind.Framed? && s.areas[0].start < s.areas[0].end
    ensures s.areas[0].start in s.areas[0].frames && s.areas[0].frames[s.areas[0].start] in s.pt.t.role
    ensures Key(s.areas[0].start) in s.pt.Map()
    ensures PpnOf(s.pt.Map()[Key(s.areas[0].start)]) == s.areas[0].frames[s.areas[0].start]
  {
    hide SpaceOk, PageTable.Valid, PageTable.Map, PpnOf, Key;
    s.pt.Facts();
    assert Within(s.areas[0], s.areas[0].start);
    PageFrame(s.pt.Map(), s.pt.t, s.areas, s.fixed, 0, s.areas[0].start);
  }

  /** A new space on the machine of a torn one, with a page of its own. */
  method Beside(one: MemorySet) returns (two: MemorySet)
    requires one.pt.Valid() && Key(0) in one.pt.Map() && PpnOf(one.pt.Map()[Key(0)]) in one.pt.m.Free()
    requires one.pt.m.Count() >= 6 && |one.pt.m.recycled| >= 2
    requires PpnOf(one.pt.Map()[Key(0)]) == one.pt.m.recycled[|one.pt.m.recycled| - 2]
    modifies one.pt.m
    ensures fresh(two) && fresh(two.pt) && two.pt.m == one.pt.m && one.pt.Valid() && two.Ok()
    ensures one.pt.Map() == old(one.pt.Map()) && Key(0) in two.pt.Map()
    ensures PpnOf(two.pt.Map()[Key(0)]) == PpnOf(one.pt.Map()[Key(0)])
    ensures PpnOf(one.pt.Map()[Key(0)]) in two.pt.t.role && PpnOf(one.pt.Map()[Key(0)]) !in one.pt.t.role
  {
    hide SpaceOk, TreeOk, TableOf, Key, PpnOf, PageTable.Valid, PageTable.Map, PageTable.Trackers, Added, Owns;
    hide KeysAfter, NoConflict, Machine.Valid, Machine.Busy, Machine.Free, Machine.Count;
    var m := one.pt.m;
    one.pt.Facts();
    ghost var m0, f, b, mem := one.pt.Map(), m.Free(), m.Busy(), m.mem;
    var made := NewBare(m);
    two := made.value;
    ghost var t1, f1, b1, mem1 := two.pt.t, m.Free(), m.Busy(), m.mem;
    EmptyIsFree();
    var r := two.Push(Fresh(0, 1));
    OwnsMore(f, b, mem, t1, f1, b1, mem1, two.pt.t, m.Free(), m.Busy(), m.mem);
    Apart(one.pt.t.role.Keys, f, b, mem, two.pt.t, m.Free(), m.Busy(), m.mem);
    two.pt.Facts();
    Undisturbed(one.pt, mem, two.pt.t.role.Keys, m0);
    FirstFrame(two);
  }

  lemma Apart(own: set<nat>, f: set<nat>, b: set<nat>, mem: seq<Frame>, t: Tables, f': set<nat>, b': set<nat>, mem': seq<Frame>)
    requires Owns(f, b, mem, t, f', b', mem') && own <= b && f !! b
    ensures t.role.Keys !! own && own <= b' && SameExcept(mem, mem', t.role.Keys)
  {
  }

  lemma EmptyIsFree()
    ensures NoConflict(map[], Fresh(0, 1))
  {
  }

  /**
   A torn page in use: the next space on the machine gets the very frame for its first page, and page 0 of the
   one is page 0 of the other.
   */
  method SharedFrame() returns (one: MemorySet, two: MemorySet)
    ensures one.pt != two.pt && one.pt.m == two.pt.m && one.pt.Valid() && two.Ok()
    ensures Key(0) in one.pt.Map() && Key(0) in two.pt.Map()
    ensures PpnOf(one.pt.Map()[Key(0)]) == PpnOf(two.pt.Map()[Key(0)])
    ensures PpnOf(one.pt.Map()[Key(0)]) in two.pt.t.role && PpnOf(one.pt.Map()[Key(0)]) !in one.pt.t.role
  {
    hide SpaceOk, TreeOk, TableOf, Key, PpnOf, PageTable.Valid, PageTable.Map, PageTable.Trackers, Added, Undone, Owns;
    hide KeysAfter, NoConflict, Machine.Valid, Machine.Busy, Machine.Free, Machine.Count;
    var r;
    one, r := TornArea();
    two := Beside(one);
  }

  // ----- the others go on

  // What is known of a torn page before the others run.
  lemma TornFacts(w: World, pid: nat, vpn: nat)
    requires w.ApartBut(pid) && Torn(w.sets[pid], w.m, vpn)
    ensures pid in w.sets && w.m.Valid() && w.sets[pid].pt.Valid() && w.sets[pid].pt.m == w.m && Key(vpn) in w.sets[pid].pt.Map()
    ensures PpnOf(w.sets[pid].pt.Map()[Key(vpn)]) in Span(w.m.base, w.m.end)
    ensures PpnOf(w.sets[pid].pt.Map()[Key(vpn)]) !in w.foreign.Keys + w.sets[pid].pt.t.role.Keys
  {
    hide PageTable.Valid, PageTable.Map, Machine.Valid, Machine.Free, Machine.Busy, Sound, Partition, Key, PpnOf;
    ButFacts(w, pid);
    w.m.FreeAndBusy();
  }

  // A frame that is neither free nor of the rest of the system has an owner.
  lemma HasOwner(w: World, p: nat)
    requires w.Inv() && p in Span(w.m.base, w.m.end) && p !in w.foreign
    ensures p in w.m.Free() || exists q :: q in w.sets && p in w.sets[q].pt.t.role
  {
    hide Machine.Valid, Machine.Free, Machine.Busy, Sound;
    w.m.FreeAndBusy();
    if p in w.m.Busy() {
      var q :| q in w.Roles() && p in w.Roles()[q];
      assert p in w.sets[q].pt.t.role;
    }
  }

  // Tables that nobody wrote still stand for the same map.
  lemma TablesKept(pt: PageTable, mem: seq<Frame>, m0: map<nat, nat>, w: World)
    requires w.Inv() && pt.m == w.m && pt.t.role.Keys <= w.foreign.Keys
    requires pt.root == pt.t.root && TreeOk(mem, pt.t) && pt.Trackers() && m0 == TableOf(mem, pt.t)
    requires forall p :: p in pt.t.role && p < |mem| ==> w.foreign[p] == mem[p]
    ensures pt.Valid() && pt.Map() == m0
  {
    hide Machine.Valid, Machine.Busy, Sound, TreeOk, TableOf, PageTable.Trackers;
    assert Untouched(w.foreign, w.m.mem);
    assert TableFrames(pt.t) <= pt.t.role.Keys;
    pt.StaysValid(mem);
  }

  /**
   Whatever the others do after a torn insertion by pid, the torn page keeps its entry, and the frame it leads to
   is free or belongs to one of them; once no frame is free, it belongs to one of them.
   */
  method OthersGoOn(w: World, pid: nat, vpn: nat, ops: seq<PM.Op>) returns (rest: World, answers: seq<int>)
    requires w.ApartBut(pid) && w.Owned() && Torn(w.sets[pid], w.m, vpn)
    requires PM.EnabledRun(w.ProcessesBut(pid), ops)
    modifies w.m, w.repr
    ensures answers <= PM.Answers(old(w.ProcessesBut(pid)), ops) && (|answers| < |ops| ==> w.m.Free() == {})
    ensures |answers| == |ops| ==>
              && rest.m == w.m && rest.Inv() && rest.Processes() == PM.After(old(w.ProcessesBut(pid)), ops)
              && w.sets[pid].pt.Valid() && w.sets[pid].pt.Map() == old(w.sets[pid].pt.Map())
              && Key(vpn) in w.sets[pid].pt.Map()
              && var p := PpnOf(w.sets[pid].pt.Map()[Key(vpn)]);
                 && p !in w.sets[pid].pt.t.role
                 && (p in w.m.Free() || exists q :: q in rest.sets && p in rest.sets[q].pt.t.role)
  {
    hide World.Inv, World.ApartBut, World.Owned, World.Processes, World.ProcessesBut, Torn, PageTable.Valid;
    hide PageTable.Map, Machine.Valid, Machine.Free, Machine.Busy, Key, PpnOf, TreeOk, TableOf, PageTable.Trackers;
    hide PM.EnabledRun, PM.After, PM.Answers;
    TornFacts(w, pid, vpn);
    var pt := w.sets[pid].pt;
    pt.Facts();
    ghost var mem, m0 := w.m.mem, pt.Map();
    OwnedFacts(w);
    rest := new World.Without(w, pid);
    answers := rest.Run(ops);
    if |answers| == |ops| {
      TablesKept(pt, mem, m0, rest);
      HasOwner(rest, PpnOf(m0[Key(vpn)]));
    }
  }
}
