/** Map areas and memory sets: mapping, unmapping, and copying an address space. */
module MemorySets {
  import opened Basics
  import opened Pages
  import opened Frames
  import opened PageTables
  import opened Spaces

  // ----- data frames join and leave a space without touching its tables

  lemma AddData(mem: seq<Frame>, t: Tables, p: nat, v: nat)
    requires TreeOk(mem, t) && p !in t.role
    ensures TreeOk(mem, t.(role := t.role[p := Data(v)]))
    ensures TableFrames(t.(role := t.role[p := Data(v)])) == TableFrames(t)
    ensures TableOf(mem, t.(role := t.role[p := Data(v)])) == TableOf(mem, t)
  {
    hide TableOf, Levels, Entry;
    RolesWithData(t, p, v);
    SameTree(mem, t, t.(role := t.role[p := Data(v)]));
  }

  lemma DropData(mem: seq<Frame>, t: Tables, p: nat)
    requires TreeOk(mem, t) && p in t.role && t.role[p].Data?
    ensures TreeOk(mem, t.(role := t.role - {p}))
    ensures TableFrames(t.(role := t.role - {p})) == TableFrames(t)
    ensures TableOf(mem, t.(role := t.role - {p})) == TableOf(mem, t)
  {
    hide TableOf, Levels, Entry;
    RolesWithoutData(t, p);
    SameTree(mem, t, t.(role := t.role - {p}));
  }

  lemma RolesWithData(t: Tables, p: nat, v: nat)
    requires Roles(t) && p !in t.role
    ensures Roles(t.(role := t.role[p := Data(v)]))
    ensures TableFrames(t.(role := t.role[p := Data(v)])) == TableFrames(t)
  {
    assert TableFrames(t.(role := t.role[p := Data(v)])) == TableFrames(t);
  }

  lemma RolesWithoutData(t: Tables, p: nat)
    requires Roles(t) && p in t.role && t.role[p].Data?
    ensures Roles(t.(role := t.role - {p}))
    ensures TableFrames(t.(role := t.role - {p})) == TableFrames(t)
  {
    assert TableFrames(t.(role := t.role - {p})) == TableFrames(t);
  }

  lemma SameTree(mem: seq<Frame>, t: Tables, t': Tables)
    requires TreeOk(mem, t) && t' == t.(role := t'.role) && Roles(t')
    ensures TreeOk(mem, t') && TableOf(mem, t') == TableOf(mem, t)
  {
    hide Roles;
    forall i | 0 <= i < 512 ensures Entry(mem, t'.root, i, t'.l1, i) {
      assert Entry(mem, t.root, i, t.l1, i);
    }
    forall j | 0 <= j < PAIR_LIMIT && j / 512 in t'.l1 ensures Entry(mem, t'.l1[j / 512], j % 512, t'.l2, j) {
      assert Entry(mem, t.l1[j / 512], j % 512, t.l2, j);
    }
    hide TableOf, Pair, Index2, IsValid;
    SameTable(mem, t, mem, t');
  }

  // t' has every role of t and frames taken from free.
  ghost predicate Keeps(t: Tables, t': Tables, free: set<nat>) {
    && t'.root == t.root
    && (forall p :: p in t.role ==> p in t'.role && t'.role[p] == t.role[p])
    && (forall p :: p in t'.role && p !in t.role ==> p in free)
  }

  // What an operation that only adds to a space does to the machine: it takes free frames into
  // the space and writes the space's own frames, its pages keep their contents, and new pages are zero.
  ghost predicate Added(t: Tables, free: set<nat>, busy: set<nat>, mem: seq<Frame>,
                        t': Tables, free': set<nat>, busy': set<nat>, mem': seq<Frame>) {
    && Keeps(t, t', free)
    && Took(free, busy, free', busy', t'.role.Keys - t.role.Keys)
    && SameExcept(mem, mem', t'.role.Keys)
    && (forall p :: p in t.role && t.role[p].Data? && p < |mem| == |mem'| ==> mem'[p] == mem[p])
    && (forall p :: p in t'.role && p !in t.role && t'.role[p].Data? && p < |mem'| ==> mem'[p] == ZeroFrame())
  }

  lemma AddedTransitive(t0: Tables, f0: set<nat>, b0: set<nat>, m0: seq<Frame>,
                        t1: Tables, f1: set<nat>, b1: set<nat>, m1: seq<Frame>,
                        t2: Tables, f2: set<nat>, b2: set<nat>, m2: seq<Frame>)
    requires Added(t0, f0, b0, m0, t1, f1, b1, m1) && Added(t1, f1, b1, m1, t2, f2, b2, m2)
    ensures Added(t0, f0, b0, m0, t2, f2, b2, m2)
  {
    assert t2.role.Keys - t0.role.Keys == (t1.role.Keys - t0.role.Keys) + (t2.role.Keys - t1.role.Keys);
  }

  lemma AddedReflexive(t: Tables, f: set<nat>, b: set<nat>, m: seq<Frame>)
    ensures Added(t, f, b, m, t, f, b, m)
  {
  }

  // A page added by map_one: the frame p is taken and zeroed, then the page table extends itself.
  lemma PageAdded(t: Tables, f: set<nat>, b: set<nat>, mem: seq<Frame>, p: nat, v: nat,
                  f1: set<nat>, b1: set<nat>, mem1: seq<Frame>,
                  t2: Tables, f2: set<nat>, b2: set<nat>, mem2: seq<Frame>)
    requires Took(f, b, f1, b1, {p}) && f !! b && t.role.Keys <= b && p < |mem|
    requires mem1 == mem[p := ZeroFrame()]
    requires Extends(t, t2, f1) && Took(f1, b1, f2, b2, t2.role.Keys - t.role.Keys)
    requires SameExcept(mem1, mem2, TableFrames(t2))
    ensures p !in t.role && p !in t2.role
    ensures Added(t, f, b, mem, t2.(role := t2.role[p := Data(v)]), f2, b2, mem2)
    ensures mem2[p] == ZeroFrame()
  {
    var t3 := t2.(role := t2.role[p := Data(v)]);
    assert t3.role.Keys - t.role.Keys == {p} + (t2.role.Keys - t.role.Keys);
  }

  // ----- one page

  // The area that map has built so far, when it is about to do page vpn.
  ghost function Partial(a: MapArea, vpn: nat, frames: map<nat, nat>): MapArea {
    a.(end := vpn, frames := frames)
  }

  ghost predicate Building(pt: PageTable, rest: seq<MapArea>, fixed: map<nat, nat>, a: MapArea)
    reads pt, pt.m
  {
    pt.Valid() && SpaceOk(pt.Map(), pt.t, rest + [a], fixed)
  }

  // Everything that follows once the page table has accepted page vpn in frame p.
  lemma FramedPageDone(m: map<nat, nat>, t: Tables, f: set<nat>, b: set<nat>, mem: seq<Frame>,
                       p: nat, f1: set<nat>, b1: set<nat>, mem1: seq<Frame>,
                       t2: Tables, f2: set<nat>, b2: set<nat>, mem2: seq<Frame>,
                       rest: seq<MapArea>, done: MapArea, fixed: map<nat, nat>)
    requires Took(f, b, f1, b1, {p}) && f !! b && t.role.Keys <= b && p < |mem|
    requires mem1 == mem[p := ZeroFrame()]
    requires Extends(t, t2, f1) && Took(f1, b1, f2, b2, t2.role.Keys - t.role.Keys)
    requires SameExcept(mem1, mem2, TableFrames(t2)) && TreeOk(mem2, t2) && t2.role.Keys <= b2
    requires SpaceOk(m, t, rest + [done], fixed) && done.kind.Framed? && PermOk(done.perm)
    requires done.end < done.start + KEY_LIMIT && Key(done.end) !in m
    ensures var t3 := WithData(t2, done, done.end, p);
            && TreeOk(mem2, t3) && TableOf(mem2, t3) == TableOf(mem2, t2) && TableFrames(t3) == TableFrames(t2)
            && t3.role.Keys <= b2
            && SpaceOk(m[Key(done.end) := NewPte(done, p)], t3, rest + [Spaces.Grown(done, p)], fixed)
            && Added(t, f, b, mem, t3, f2, b2, mem2) && OneNewPage(t, t3, p)
  {
    hide TreeOk, TableOf, TableFrames, Key, SpaceOk, Pte, Added;
    PageAdded(t, f, b, mem, p, done.end, f1, b1, mem1, t2, f2, b2, mem2);
    SpaceExtends(m, t, t2, rest + [done], fixed, f1);
    AddData(mem2, t2, p, done.end);
    AddPage(m, t2, rest, done, fixed, p);
  }

  // The page table refused page vpn: the space is as before, and the frame p is nobody's.
  ghost predicate Refused(t: Tables, f: set<nat>, b: set<nat>, mem: seq<Frame>,
                          t2: Tables, f2: set<nat>, b2: set<nat>, mem2: seq<Frame>, p: nat) {
    && Extends(t, t2, f) && p in f && p !in t2.role
    && Took(f, b, f2, b2, (t2.role.Keys - t.role.Keys) + {p})
    && SameExcept(mem, mem2, TableFrames(t2) + {p})
  }

  // The same once the frame is back: at most tables were added.
  ghost predicate Undone(t: Tables, f: set<nat>, b: set<nat>, mem: seq<Frame>,
                         t2: Tables, f2: set<nat>, b2: set<nat>, mem2: seq<Frame>) {
    && Extends(t, t2, f) && Took(f, b, f2, b2, t2.role.Keys - t.role.Keys)
    && SameExcept(mem, mem2, TableFrames(t2) + f)
  }

  lemma FramedPageRefused(m: map<nat, nat>, t: Tables, f: set<nat>, b: set<nat>, mem: seq<Frame>,
                          p: nat, f1: set<nat>, b1: set<nat>, mem1: seq<Frame>,
                          t2: Tables, f2: set<nat>, b2: set<nat>, mem2: seq<Frame>,
                          areas: seq<MapArea>, fixed: map<nat, nat>)
    requires Took(f, b, f1, b1, {p}) && f !! b && t.role.Keys <= b && p < |mem|
    requires mem1 == mem[p := ZeroFrame()] && SameExcept(mem1, mem2, TableFrames(t2))
    requires Extends(t, t2, f1) && Took(f1, b1, f2, b2, t2.role.Keys - t.role.Keys)
    requires SpaceOk(m, t, areas, fixed)
    ensures SpaceOk(m, t2, areas, fixed)
    ensures Refused(t, f, b, mem, t2, f2, b2, mem2, p)
  {
    SpaceExtends(m, t, t2, areas, fixed, f1);
    hide SpaceOk;
  }

  // The only page that t' has and t has not is in frame p.
  ghost predicate OneNewPage(t: Tables, t': Tables, p: nat) {
    && p !in t.role && p in t'.role && t'.role[p].Data?
    && forall q :: q in t'.role && q !in t.role && t'.role[q].Data? ==> q == p
  }

  // The frame that the allocator's stack had on top, if any.
  ghost predicate OnTop(recycled: seq<nat>, p: nat) {
    recycled != [] ==> p == recycled[|recycled| - 1]
  }

  lemma PoppedWasOnTop(m: Machine, was: seq<nat>, p: nat)
    requires m.Popped(was, Some(p))
    ensures OnTop(was, p)
  {
  }

  /** map_one on a framed area: 0 and one more page, or -1 when the page is mapped already; None out of memory. */
  method MapOneFramed(a: MapArea, vpn: nat, frames: map<nat, nat>, pt: PageTable,
                      ghost rest: seq<MapArea>, ghost fixed: map<nat, nat>)
    returns (r: Option<int>, frames': map<nat, nat>)
    requires a.kind.Framed?
    requires Building(pt, rest, fixed, Partial(a, vpn, frames))
    requires a.start <= vpn < a.start + KEY_LIMIT && PermOk(a.perm)
    modifies pt, pt.m
    ensures pt.Valid() && old(pt.m.Count()) <= pt.m.Count() + 3
    ensures r.None? ==> pt.m.Free() == {}
    ensures r.Some? && Key(vpn) !in old(pt.Map()) ==>
              && r.value == 0 && Building(pt, rest, fixed, Partial(a, vpn + 1, frames'))
              && pt.Map().Keys == old(pt.Map()).Keys + {Key(vpn)}
              && vpn in frames' && frames' == frames[vpn := frames'[vpn]]
              && OneNewPage(old(pt.t), pt.t, frames'[vpn]) && OnTop(old(pt.m.recycled), frames'[vpn])
              && Added(old(pt.t), old(pt.m.Free()), old(pt.m.Busy()), old(pt.m.mem),
                       pt.t, pt.m.Free(), pt.m.Busy(), pt.m.mem)
    ensures r.Some? && Key(vpn) in old(pt.Map()) ==>
              && r.value == -1 && pt.Map() == old(pt.Map()) && Building(pt, rest, fixed, Partial(a, vpn, frames))
              && vpn in frames' && frames' == frames[vpn := frames'[vpn]]
              && Refused(old(pt.t), old(pt.m.Free()), old(pt.m.Busy()), old(pt.m.mem),
                         pt.t, pt.m.Free(), pt.m.Busy(), pt.m.mem, frames'[vpn])
  {
    hide TreeOk, TableOf, TableFrames, Key, SpaceOk, Pte, Added, Extends, SameExcept, Refused, Took, OneNewPage;
    hide PageTable.Valid, Machine.Valid, Machine.Free, Machine.Busy, Machine.Count, Machine.Popped, OnTop;
    ghost var m, t, f, b, mem := pt.Map(), pt.t, pt.m.Free(), pt.m.Busy(), pt.m.mem;
    ghost var done := Partial(a, vpn, frames);
    pt.Facts();
    frames' := frames;
    var frame := pt.Grab();
    if frame.None? {
      return None, frames';
    }
    var p := frame.value;
    PoppedWasOnTop(pt.m, old(pt.m.recycled), p);
    frames' := frames[vpn := p];
    ghost var f1, b1, mem1 := pt.m.Free(), pt.m.Busy(), pt.m.mem;
    r := pt.MapPage(vpn, p, a.perm);
    pt.Facts();
    if r == Some(0) {
      FramedPageDone(m, t, f, b, mem, p, f1, b1, mem1, pt.t, pt.m.Free(), pt.m.Busy(), pt.m.mem, rest, done, fixed);
      pt.SetRoles(WithData(pt.t, done, vpn, p));
    } else if r.Some? {
      FramedPageRefused(m, t, f, b, mem, p, f1, b1, mem1, pt.t, pt.m.Free(), pt.m.Busy(), pt.m.mem, rest + [done], fixed);
    }
  }

  // ----- dropping frame trackers

  // The pages [lo, hi) of a refused area leave the space; their entries stay in the page table.
  ghost predicate Trackers(t: Tables, frames: map<nat, nat>, lo: nat, hi: nat) {
    forall v: nat :: lo <= v < hi ==> v in frames && frames[v] in t.role && t.role[frames[v]] == Data(v)
  }

  ghost function FrameSet(frames: map<nat, nat>, lo: nat, hi: nat): (s: set<nat>)
    ensures forall v: nat :: lo <= v < hi && v in frames ==> frames[v] in s
    ensures forall p :: p in s ==> exists v: nat :: lo <= v < hi && v in frames && frames[v] == p
    decreases hi
  {
    if hi <= lo then {}
    else FrameSet(frames, lo, hi - 1) + (if hi - 1 in frames then {frames[hi - 1]} else {})
  }

  lemma {:induction false} FrameSetOther(frames: map<nat, nat>, lo: nat, hi: nat, v: nat, p: nat)
    requires hi <= v
    ensures FrameSet(frames[v := p], lo, hi) == FrameSet(frames, lo, hi)
    decreases hi
  {
    if lo < hi { FrameSetOther(frames, lo, hi - 1, v, p); }
  }

  // The pages that t' has and t has not are those of frames over [lo, hi).
  ghost predicate NewPages(t: Tables, t': Tables, frames: map<nat, nat>, lo: nat, hi: nat) {
    && (forall p :: p in FrameSet(frames, lo, hi) ==> p in t'.role && p !in t.role && t'.role[p].Data?)
    && (forall p :: p in t'.role && p !in t.role && t'.role[p].Data? ==> p in FrameSet(frames, lo, hi))
  }

  lemma NewPagesNext(t0: Tables, t: Tables, f: set<nat>, t': Tables, frames: map<nat, nat>, lo: nat, v: nat, p: nat)
    requires NewPages(t0, t, frames, lo, v) && Keeps(t, t', f) && OneNewPage(t, t', p) && lo <= v
    requires forall q :: q in t0.role ==> q in t.role
    ensures NewPages(t0, t', frames[v := p], lo, v + 1)
  {
    FrameSetOther(frames, lo, v, v, p);
    assert FrameSet(frames[v := p], lo, v + 1) == FrameSet(frames, lo, v) + {p};
  }

  // Halfway through a refusal: the pages [lo, hi) were added, and one frame more was taken.
  ghost predicate Halfway(t: Tables, f: set<nat>, b: set<nat>, mem: seq<Frame>,
                          t2: Tables, f2: set<nat>, b2: set<nat>, mem2: seq<Frame>, frames: map<nat, nat>, lo: nat, hi: nat) {
    && hi in frames && Keeps(t, t2, f) && NewPages(t, t2, frames, lo, hi) && frames[hi] in f && frames[hi] !in t2.role
    && Took(f, b, f2, b2, (t2.role.Keys - t.role.Keys) + {frames[hi]})
    && SameExcept(mem, mem2, TableFrames(t2) + f)
  }

  lemma AddedThenRefused(t: Tables, f: set<nat>, b: set<nat>, mem: seq<Frame>,
                         t1: Tables, f1: set<nat>, b1: set<nat>, mem1: seq<Frame>,
                         t2: Tables, f2: set<nat>, b2: set<nat>, mem2: seq<Frame>,
                         was: map<nat, nat>, frames: map<nat, nat>, lo: nat, hi: nat)
    requires Added(t, f, b, mem, t1, f1, b1, mem1) && NewPages(t, t1, was, lo, hi)
    requires hi in frames && frames == was[hi := frames[hi]]
    requires Refused(t1, f1, b1, mem1, t2, f2, b2, mem2, frames[hi])
    ensures Halfway(t, f, b, mem, t2, f2, b2, mem2, frames, lo, hi)
  {
    FrameSetOther(was, lo, hi, hi, frames[hi]);
    assert t2.role.Keys - t.role.Keys == (t1.role.Keys - t.role.Keys) + (t2.role.Keys - t1.role.Keys);
    HalfwayMemory(t, f, b, mem, t1, f1, b1, mem1, t2, f2, b2, mem2, frames[hi]);
    hide SameExcept, TableFrames;
  }

  lemma HalfwayMemory(t: Tables, f: set<nat>, b: set<nat>, mem: seq<Frame>,
                      t1: Tables, f1: set<nat>, b1: set<nat>, mem1: seq<Frame>,
                      t2: Tables, f2: set<nat>, b2: set<nat>, mem2: seq<Frame>, p: nat)
    requires Added(t, f, b, mem, t1, f1, b1, mem1) && Refused(t1, f1, b1, mem1, t2, f2, b2, mem2, p)
    ensures SameExcept(mem, mem2, TableFrames(t2) + f)
  {
    forall q | 0 <= q < |mem| && q !in TableFrames(t2) + f ensures mem2[q] == mem[q] {
      assert q in t1.role ==> q in t.role;
    }
  }

  // Once the frames are back, at most tables were added.
  lemma HalfwayUndone(t: Tables, f: set<nat>, b: set<nat>, mem: seq<Frame>,
                      t2: Tables, f2: set<nat>, b2: set<nat>, mem2: seq<Frame>, frames: map<nat, nat>, lo: nat, hi: nat)
    requires Halfway(t, f, b, mem, t2, f2, b2, mem2, frames, lo, hi) && f !! b
    ensures var gone := FrameSet(frames, lo, hi);
            Undone(t, f, b, mem, t2.(role := t2.role - gone), f2 + gone + {frames[hi]}, b2 - gone - {frames[hi]}, mem2)
  {
    var gone := FrameSet(frames, lo, hi);
    var t3 := t2.(role := t2.role - gone);
    assert t3.role.Keys - t.role.Keys == (t2.role.Keys - t.role.Keys) - gone;
    assert TableFrames(t3) == TableFrames(t2);
  }

  ghost function InOrder(frames: map<nat, nat>, lo: nat, hi: nat): seq<nat>
    requires forall v: nat :: lo <= v < hi ==> v in frames
    decreases hi
  {
    if hi <= lo then [] else InOrder(frames, lo, hi - 1) + [frames[hi - 1]]
  }

  lemma NextTracker(frames: map<nat, nat>, lo: nat, v: nat, role: map<nat, Role>)
    requires lo <= v && forall w: nat :: lo <= w <= v ==> w in frames
    ensures FrameSet(frames, lo, v + 1) == FrameSet(frames, lo, v) + {frames[v]}
    ensures role - FrameSet(frames, lo, v) - {frames[v]} == role - FrameSet(frames, lo, v + 1)
    ensures InOrder(frames, lo, v + 1) == InOrder(frames, lo, v) + [frames[v]]
  {
  }

  lemma TrackerDropped(t: Tables, frames: map<nat, nat>, v: nat, hi: nat)
    requires Trackers(t, frames, v, hi) && v < hi
    ensures v in frames && frames[v] in t.role && t.role[frames[v]].Data?
    ensures Trackers(t.(role := t.role - {frames[v]}), frames, v + 1, hi)
  {
  }

  lemma TrackersAreThere(t: Tables, frames: map<nat, nat>, lo: nat, hi: nat)
    requires Trackers(t, frames, lo, hi)
    ensures forall w: nat :: lo <= w < hi ==> w in frames
  {
  }

  lemma NoTracker(frames: map<nat, nat>, lo: nat, role: map<nat, Role>)
    ensures FrameSet(frames, lo, lo) == {} && role - {} == role && InOrder(frames, lo, lo) == []
  {
    assert role - {} == role;
  }

  lemma OneTracker(frames: map<nat, nat>, v: nat)
    requires v in frames
    ensures InOrder(frames, v, v + 1) == [frames[v]]
  {
    assert InOrder(frames, v, v) == [];
  }

  /** Drop of data_frames over [lo, hi): each tracker returns its frame, in page order. */
  method DropTrackers(frames: map<nat, nat>, lo: nat, hi: nat, pt: PageTable)
    requires pt.Valid() && lo <= hi && Trackers(pt.t, frames, lo, hi)
    modifies pt`t, pt.m`recycled
    ensures pt.Valid() && pt.Map() == old(pt.Map()) && pt.m.mem == old(pt.m.mem)
    ensures pt.t == old(pt.t).(role := old(pt.t).role - FrameSet(frames, lo, hi))
    ensures pt.m.Free() == old(pt.m.Free()) + FrameSet(frames, lo, hi)
    ensures pt.m.Busy() == old(pt.m.Busy()) - FrameSet(frames, lo, hi)
    ensures pt.m.recycled == old(pt.m.recycled) + InOrder(frames, lo, hi)
  {
    hide TreeOk, TableOf, TableFrames, PageTable.Valid, Machine.Valid, Machine.Free, Machine.Busy, FrameSet, InOrder;
    hide Trackers, PageTable.Map;
    var v := lo;
    NoTracker(frames, lo, pt.t.role);
    TrackersAreThere(pt.t, frames, lo, hi);
    while v < hi
      invariant lo <= v <= hi
      invariant pt.Valid() && pt.Map() == old(pt.Map()) && pt.m.mem == old(pt.m.mem)
      invariant Trackers(pt.t, frames, v, hi)
      invariant pt.t == old(pt.t).(role := old(pt.t).role - FrameSet(frames, lo, v))
      invariant pt.m.Free() == old(pt.m.Free()) + FrameSet(frames, lo, v)
      invariant pt.m.Busy() == old(pt.m.Busy()) - FrameSet(frames, lo, v)
      invariant forall w: nat :: lo <= w < hi ==> w in frames
      invariant pt.m.recycled == old(pt.m.recycled) + InOrder(frames, lo, v)
    {
      NextTracker(frames, lo, v, old(pt.t).role);
      TrackerDropped(pt.t, frames, v, hi);
      DropOne(frames[v], pt);
      v := v + 1;
    }
  }

  method DropOne(p: nat, pt: PageTable)
    requires pt.Valid() && p in pt.t.role && pt.t.role[p].Data?
    modifies pt`t, pt.m`recycled
    ensures pt.Valid() && pt.Map() == old(pt.Map()) && pt.m.mem == old(pt.m.mem)
    ensures pt.t == old(pt.t).(role := old(pt.t).role - {p})
    ensures pt.m.Free() == old(pt.m.Free()) + {p} && pt.m.Busy() == old(pt.m.Busy()) - {p}
    ensures pt.m.recycled == old(pt.m.recycled) + [p]
  {
    hide TreeOk, TableOf, TableFrames, Machine.Valid, Machine.Free, Machine.Busy;
    DropData(pt.m.mem, pt.t, p);
    pt.t := pt.t.(role := pt.t.role - {p});
    pt.m.FrameDealloc(p);
  }

  // ----- MapArea::map and MapArea::unmap

  // No page of a below vpn has its key in m.
  ghost predicate Unmapped(m: map<nat, nat>, a: MapArea, vpn: nat) {
    forall v: nat :: a.start <= v < vpn ==> Key(v) !in m
  }

  // The keys of m, and the pages of a below vpn.
  ghost predicate KeysAfter(m: map<nat, nat>, m': map<nat, nat>, a: MapArea, vpn: nat) {
    forall k :: k in m' <==> k in m || exists v: nat :: a.start <= v < vpn && Key(v) == k
  }

  lemma NextIsNew(m: map<nat, nat>, m': map<nat, nat>, a: MapArea, vpn: nat)
    requires KeysAfter(m, m', a, vpn) && a.start <= vpn < a.start + KEY_LIMIT
    ensures Key(vpn) in m' <==> Key(vpn) in m
  {
    if v: nat :| a.start <= v < vpn && Key(v) == Key(vpn) {
      KeysInRange(v, vpn);
    }
  }

  lemma KeysStep(m: map<nat, nat>, m': map<nat, nat>, m'': map<nat, nat>, a: MapArea, vpn: nat)
    requires KeysAfter(m, m', a, vpn) && m''.Keys == m'.Keys + {Key(vpn)} && a.start <= vpn
    ensures KeysAfter(m, m'', a, vpn + 1)
  {
    forall k ensures k in m'' <==> k in m || exists v: nat :: a.start <= v < vpn + 1 && Key(v) == k {
      assert k in m'' <==> k in m'.Keys || k == Key(vpn);
    }
  }

  /**
   MapArea::map on a framed area. Every page is mapped to a new zeroed frame, unless some page
   is mapped already: then the loop stops at the first such page, stop, with one frame too many.
   */
  method MapFramed(a: MapArea, pt: PageTable, ghost rest: seq<MapArea>, ghost fixed: map<nat, nat>)
    returns (r: Option<int>, frames: map<nat, nat>, stop: nat)
    requires a.kind.Framed? && a.start <= a.end <= a.start + KEY_LIMIT && PermOk(a.perm)
    requires Building(pt, rest, fixed, Partial(a, a.start, map[]))
    modifies pt, pt.m
    ensures pt.Valid() && old(pt.m.Count()) <= pt.m.Count() + 3 * (a.end - a.start)
    ensures r.None? ==> pt.m.Free() == {}
    ensures r.Some? ==> a.start <= stop <= a.end && Unmapped(old(pt.Map()), a, stop)
    ensures r.Some? ==> KeysAfter(old(pt.Map()), pt.Map(), a, stop)
    ensures r.Some? && r.value == 0 ==>
              && stop == a.end && Building(pt, rest, fixed, Partial(a, a.end, frames))
              && Added(old(pt.t), old(pt.m.Free()), old(pt.m.Busy()), old(pt.m.mem),
                       pt.t, pt.m.Free(), pt.m.Busy(), pt.m.mem)
    ensures r.Some? && r.value != 0 ==>
              && r.value == -1 && stop < a.end && Key(stop) in old(pt.Map()) && stop in frames
              && Building(pt, rest, fixed, Partial(a, stop, frames - {stop}))
              && frames[stop] !in pt.t.role && frames[stop] in pt.m.Busy()
              && (stop == a.start ==> pt.Map() == old(pt.Map()))
              && Halfway(old(pt.t), old(pt.m.Free()), old(pt.m.Busy()), old(pt.m.mem),
                         pt.t, pt.m.Free(), pt.m.Busy(), pt.m.mem, frames, a.start, stop)
    ensures r == Some(0) && a.start < a.end ==> a.start in frames && OnTop(old(pt.m.recycled), frames[a.start])
  {
    hide Key, Pte, Added, SpaceOk, KeysAfter, Refused, NewPages, OneNewPage, Halfway, Machine.Count, OnTop, Keeps;
    hide PageTable.Valid, Machine.Valid, Machine.Free, Machine.Busy, PageTable.Map;
    frames := map[];
    stop := a.start;
    AddedReflexive(pt.t, pt.m.Free(), pt.m.Busy(), pt.m.mem);
    NoKeysYet(pt.Map(), a);
    NoPagesYet(pt.t, a.start);
    while stop < a.end
      invariant a.start <= stop <= a.end
      invariant Building(pt, rest, fixed, Partial(a, stop, frames)) && stop !in frames
      invariant Unmapped(old(pt.Map()), a, stop)
      invariant KeysAfter(old(pt.Map()), pt.Map(), a, stop)
      invariant old(pt.m.Count()) <= pt.m.Count() + 3 * (stop - a.start)
      invariant stop == a.start ==> pt.Map() == old(pt.Map()) && pt.m.recycled == old(pt.m.recycled)
      invariant stop > a.start ==> a.start in frames && OnTop(old(pt.m.recycled), frames[a.start])
      invariant NewPages(old(pt.t), pt.t, frames, a.start, stop)
      invariant Added(old(pt.t), old(pt.m.Free()), old(pt.m.Busy()), old(pt.m.mem),
                      pt.t, pt.m.Free(), pt.m.Busy(), pt.m.mem)
    {
      ghost var m1, t1, f1, b1, mem1 := pt.Map(), pt.t, pt.m.Free(), pt.m.Busy(), pt.m.mem;
      NextIsNew(old(pt.Map()), m1, a, stop);
      ghost var was := frames;
      r, frames := MapOneFramed(a, stop, frames, pt, rest, fixed);
      if r.None? {
        return;
      }
      if r.value == -1 {
        assert frames - {stop} == was;
        RefusedIsBusy(t1, f1, b1, mem1, pt.t, pt.m.Free(), pt.m.Busy(), pt.m.mem, frames[stop]);
        AddedThenRefused(old(pt.t), old(pt.m.Free()), old(pt.m.Busy()), old(pt.m.mem), t1, f1, b1, mem1,
                         pt.t, pt.m.Free(), pt.m.Busy(), pt.m.mem, was, frames, a.start, stop);
        return;
      }
      KeysStep(old(pt.Map()), m1, pt.Map(), a, stop);
      AddedTransitive(old(pt.t), old(pt.m.Free()), old(pt.m.Busy()), old(pt.m.mem), t1, f1, b1, mem1,
                      pt.t, pt.m.Free(), pt.m.Busy(), pt.m.mem);
      PageOfMany(old(pt.t), old(pt.m.Free()), old(pt.m.Busy()), old(pt.m.mem), t1, f1, b1, mem1,
                 pt.t, pt.m.Free(), pt.m.Busy(), pt.m.mem, was, a.start, stop, frames[stop]);
      stop := stop + 1;
      BuildingShape(pt, rest, fixed, Partial(a, stop, frames));
    }
    r := Some(0);
  }

  lemma PageOfMany(t: Tables, f: set<nat>, b: set<nat>, mem: seq<Frame>,
                   t1: Tables, f1: set<nat>, b1: set<nat>, mem1: seq<Frame>,
                   t2: Tables, f2: set<nat>, b2: set<nat>, mem2: seq<Frame>, was: map<nat, nat>, lo: nat, v: nat, p: nat)
    requires Added(t, f, b, mem, t1, f1, b1, mem1) && Added(t1, f1, b1, mem1, t2, f2, b2, mem2)
    requires NewPages(t, t1, was, lo, v) && OneNewPage(t1, t2, p) && lo <= v
    ensures NewPages(t, t2, was[v := p], lo, v + 1)
  {
    hide NewPages, OneNewPage, SameExcept, Took;
    NewPagesNext(t, t1, f1, t2, was, lo, v, p);
  }

  lemma NoPagesYet(t: Tables, lo: nat)
    ensures NewPages(t, t, map[], lo, lo)
  {
  }

  lemma NoKeysYet(m: map<nat, nat>, a: MapArea)
    ensures KeysAfter(m, m, a, a.start)
  {
  }

  lemma RefusedIsBusy(t: Tables, f: set<nat>, b: set<nat>, mem: seq<Frame>,
                      t2: Tables, f2: set<nat>, b2: set<nat>, mem2: seq<Frame>, p: nat)
    requires Refused(t, f, b, mem, t2, f2, b2, mem2, p)
    ensures p !in t2.role && p in b2
  {
  }

  lemma BuildingShape(pt: PageTable, rest: seq<MapArea>, fixed: map<nat, nat>, a: MapArea)
    requires Building(pt, rest, fixed, a)
    ensures Shape(a)
    ensures a.kind.Framed? ==> a.end !in a.frames
  {
    hide PageTable.Valid;
    var areas := rest + [a];
    assert AreaOk(pt.Map(), pt.t, areas[|rest|]);
    assert !Within(a, a.end);
  }

  // ----- MapArea::unmap

  // What removing the pages of a from index i of areas leaves.
  ghost predicate Removed(m: map<nat, nat>, m': map<nat, nat>, a: MapArea, vpn: nat) {
    && (forall k :: k in m' <==> k in m && !(exists v: nat :: a.start <= v < vpn && Key(v) == k))
    && (forall k :: k in m' ==> m'[k] == m[k])
  }

  lemma RemovedStep(m: map<nat, nat>, m': map<nat, nat>, a: MapArea, vpn: nat)
    requires Removed(m, m', a, vpn) && a.start <= vpn
    ensures Removed(m, m' - {Key(vpn)}, a, vpn + 1)
  {
    forall k ensures k in m' - {Key(vpn)} <==> k in m && !(exists v: nat :: a.start <= v < vpn + 1 && Key(v) == k) {
      assert k in m' <==> k in m && !(exists v: nat :: a.start <= v < vpn && Key(v) == k);
      assert k == Key(vpn) ==> exists v: nat :: a.start <= v < vpn + 1 && Key(v) == k;
    }
  }

  /** unmap_one: the page's tracker is dropped, then its entry is cleared. */
  method UnmapOne(vpn: nat, p: nat, framed: bool, pt: PageTable)
    requires pt.Valid() && Key(vpn) in pt.Map()
    requires framed ==> p in pt.t.role && pt.t.role[p].Data?
    modifies pt, pt.m
    ensures pt.Valid() && pt.Map() == old(pt.Map()) - {Key(vpn)}
    ensures pt.t == (if framed then old(pt.t).(role := old(pt.t).role - {p}) else old(pt.t))
    ensures pt.m.Free() == old(pt.m.Free()) + (if framed then {p} else {})
    ensures pt.m.Busy() == old(pt.m.Busy()) - (if framed then {p} else {})
    ensures SameExcept(old(pt.m.mem), pt.m.mem, TableFrames(pt.t))
  {
    hide TreeOk, TableOf, TableFrames, Key, PageTable.Valid, Machine.Valid, Machine.Free, Machine.Busy;
    if framed {
      DropOne(p, pt);
    }
    pt.UnmapPage(vpn);
  }

  /** MapArea::unmap on area i of a space: its pages go, its frames are free again, nothing else changes. */
  method UnmapArea(areas: seq<MapArea>, i: nat, pt: PageTable, ghost fixed: map<nat, nat>)
    requires pt.Valid() && i < |areas| && SpaceOk(pt.Map(), pt.t, areas, fixed)
    modifies pt, pt.m
    ensures pt.Valid()
    ensures SpaceOk(pt.Map(), pt.t, areas[..i] + areas[i + 1..], fixed)
    ensures Removed(old(pt.Map()), pt.Map(), areas[i], areas[i].end)
    ensures pt.t.role == old(pt.t).role - FrameSet(areas[i].frames, areas[i].start, areas[i].end)
    ensures pt.t == old(pt.t).(role := pt.t.role)
    ensures pt.m.Free() == old(pt.m.Free()) + FrameSet(areas[i].frames, areas[i].start, areas[i].end)
    ensures pt.m.Busy() == old(pt.m.Busy()) - FrameSet(areas[i].frames, areas[i].start, areas[i].end)
    ensures SameExcept(old(pt.m.mem), pt.m.mem, TableFrames(old(pt.t)))
  {
    hide TreeOk, TableOf, Key, SpaceOk, Removed, From, FrameSet, TableFrames, SameExcept;
    hide PageTable.Valid, Machine.Valid, Machine.Free, Machine.Busy;
    var a := areas[i];
    assert a.start <= a.end by { AreaFacts(pt.Map(), pt.t, areas, i, fixed); }
    FromStart(a, pt.t.role);
    assert areas[i := a] == areas;
    NothingRemoved(pt.Map(), a);
    Unchanged(pt.m.mem, TableFrames(pt.t));
    var v := a.start;
    while v < a.end
      invariant a.start <= v <= a.end
      invariant pt.Valid()
      invariant SpaceOk(pt.Map(), pt.t, areas[i := From(a, v)], fixed)
      invariant Removed(old(pt.Map()), pt.Map(), a, v)
      invariant pt.t == old(pt.t).(role := old(pt.t).role - FrameSet(a.frames, a.start, v))
      invariant pt.m.Free() == old(pt.m.Free()) + FrameSet(a.frames, a.start, v)
      invariant pt.m.Busy() == old(pt.m.Busy()) - FrameSet(a.frames, a.start, v)
      invariant TableFrames(pt.t) == TableFrames(old(pt.t))
      invariant SameExcept(old(pt.m.mem), pt.m.mem, TableFrames(old(pt.t)))
    {
      ghost var mem1, f1, b1, t1 := pt.m.mem, pt.m.Free(), pt.m.Busy(), pt.t;
      RemovedStep(old(pt.Map()), pt.Map(), a, v);
      UnmapNext(areas, i, v, pt, fixed);
      SameExceptTransitive(old(pt.m.mem), mem1, pt.m.mem, TableFrames(old(pt.t)));
      FrameSetNext(a.frames, a.start, v, old(pt.t).role);
      v := v + 1;
    }
    FromEnd(a);
    DropEmpty(pt.Map(), pt.t, areas[i := From(a, v)], i, fixed);
    assert areas[i := From(a, v)][..i] + areas[i := From(a, v)][i + 1..] == areas[..i] + areas[i + 1..];
  }

  /** One turn of unmap's loop. */
  method UnmapNext(areas: seq<MapArea>, i: nat, v: nat, pt: PageTable, ghost fixed: map<nat, nat>)
    requires pt.Valid() && i < |areas| && areas[i].start <= v < areas[i].end
    requires SpaceOk(pt.Map(), pt.t, areas[i := From(areas[i], v)], fixed)
    modifies pt, pt.m
    ensures pt.Valid() && pt.Map() == old(pt.Map()) - {Key(v)}
    ensures SpaceOk(pt.Map(), pt.t, areas[i := From(areas[i], v + 1)], fixed)
    ensures pt.t == old(pt.t).(role := old(pt.t).role - OneFrame(areas[i].frames, v))
    ensures pt.m.Free() == old(pt.m.Free()) + OneFrame(areas[i].frames, v)
    ensures pt.m.Busy() == old(pt.m.Busy()) - OneFrame(areas[i].frames, v)
    ensures TableFrames(pt.t) == TableFrames(old(pt.t))
    ensures SameExcept(old(pt.m.mem), pt.m.mem, TableFrames(pt.t))
  {
    hide TreeOk, TableOf, Key, SpaceOk, From, SameExcept, TableFrames;
    hide PageTable.Valid, Machine.Valid, Machine.Free, Machine.Busy;
    var a := areas[i];
    ghost var here, t1 := areas[i := From(a, v)], pt.t;
    AreaFacts(pt.Map(), pt.t, here, i, fixed);
    FromFrames(a, v);
    RemovePage(pt.Map(), pt.t, here, i, fixed);
    FromNext(a, v);
    assert here[i := Shrunk(here[i])] == areas[i := From(a, v + 1)];
    var framed := a.kind.Framed?;
    UnmapOne(v, if framed then a.frames[v] else 0, framed, pt);
    DataGone(t1, pt.t, OneFrame(a.frames, v));
  }

  ghost function OneFrame(frames: map<nat, nat>, v: nat): set<nat> {
    if v in frames then {frames[v]} else {}
  }

  lemma DataGone(t: Tables, t': Tables, gone: set<nat>)
    requires t' == t.(role := t.role - gone)
    requires forall p :: p in gone ==> p in t.role && t.role[p].Data?
    ensures TableFrames(t') == TableFrames(t)
  {
  }

  lemma FrameSetNext(frames: map<nat, nat>, lo: nat, v: nat, role: map<nat, Role>)
    requires lo <= v
    ensures FrameSet(frames, lo, v + 1) == FrameSet(frames, lo, v) + OneFrame(frames, v)
    ensures role - FrameSet(frames, lo, v) - OneFrame(frames, v) == role - FrameSet(frames, lo, v + 1)
  {
  }

  lemma SameExceptTransitive(m0: seq<Frame>, m1: seq<Frame>, m2: seq<Frame>, frames: set<nat>)
    requires SameExcept(m0, m1, frames) && SameExcept(m1, m2, frames)
    ensures SameExcept(m0, m2, frames)
  {
  }

  lemma Unchanged(mem: seq<Frame>, frames: set<nat>)
    ensures SameExcept(mem, mem, frames)
  {
  }

  // The pages of a from v on.
  ghost function From(a: MapArea, v: nat): MapArea {
    a.(start := v, frames := a.frames - Span(a.start, v))
  }

  lemma FromStart(a: MapArea, role: map<nat, Role>)
    ensures From(a, a.start) == a
    ensures FrameSet(a.frames, a.start, a.start) == {} && role - {} == role
  {
    assert Span(a.start, a.start) == {};
    assert a.frames - {} == a.frames;
  }

  lemma FromEnd(a: MapArea)
    ensures From(a, a.end).start == From(a, a.end).end
  {
  }

  // Page v itself is still there, with the frame it has in a.
  lemma FromFrames(a: MapArea, v: nat)
    ensures From(a, v).start == v && From(a, v).end == a.end && From(a, v).kind == a.kind
    ensures v in From(a, v).frames <==> v in a.frames
    ensures v in a.frames ==> From(a, v).frames[v] == a.frames[v]
  {
  }

  lemma FromNext(a: MapArea, v: nat)
    requires a.start <= v
    ensures Shrunk(From(a, v)) == From(a, v + 1)
  {
    assert Span(a.start, v + 1) == Span(a.start, v) + {v};
  }

  lemma NothingRemoved(m: map<nat, nat>, a: MapArea)
    ensures Removed(m, m, a, a.start)
  {
  }

  lemma AreaFacts(m: map<nat, nat>, t: Tables, areas: seq<MapArea>, i: nat, fixed: map<nat, nat>)
    requires SpaceOk(m, t, areas, fixed) && i < |areas|
    ensures Shape(areas[i])
    ensures areas[i].start < areas[i].end ==> Key(areas[i].start) in m
    ensures areas[i].start < areas[i].end && areas[i].kind.Framed? ==>
              var v := areas[i].start;
              && v in areas[i].frames && areas[i].frames[v] in t.role && t.role[areas[i].frames[v]] == Data(v)
  {
    assert AreaOk(m, t, areas[i]);
    assert areas[i].start < areas[i].end ==> Within(areas[i], areas[i].start);
  }
}
