/** Physical memory and the stack allocator of its frames. */
module Frames {
  import opened Basics
  import opened Pages

  class Machine {
    const base: nat
    const end: nat
    var mem: seq<Frame>
    var current: nat
    var recycled: seq<nat>

    /** StackFrameAllocator::init over the frames [base, end). */
    constructor (mem: seq<Frame>, base: nat, end: nat)
      requires base <= end <= |mem| <= PPN_LIMIT
      ensures Valid() && this.mem == mem && this.base == base && this.end == end
      ensures Free() == Span(base, end) && Count() == end - base
    {
      this.base := base;
      this.mem := mem;
      current := base;
      this.end := end;
      recycled := [];
    }

    ghost predicate Valid()
      reads this
    {
      && base <= current <= end <= |mem| <= PPN_LIMIT
      && (forall i :: 0 <= i < |recycled| ==> base <= recycled[i] < current)
      && (forall i, j :: 0 <= i < j < |recycled| ==> recycled[i] != recycled[j])
    }

    // The frames that can be handed out: recycled ones and those never used.
    ghost function Free(): set<nat>
      reads this
    {
      (set p | p in recycled) + Span(current, end)
    }

    // The managed frames that are in use.
    ghost function Busy(): set<nat>
      reads this
    {
      Span(base, current) - (set p | p in recycled)
    }

    // How many frames can be handed out.
    ghost function Count(): int
      reads this
    {
      |recycled| + end - current
    }

    lemma NoneLeft()
      requires Valid()
      ensures Free() == {} <==> Count() == 0
    {
      assert |recycled| > 0 ==> recycled[0] in Free();
      assert current < end ==> current in Free();
    }

    lemma FreeAndBusy()
      requires Valid()
      ensures Free() !! Busy() && Free() + Busy() == Span(base, end)
      ensures forall p :: p in Free() + Busy() ==> base <= p < |mem|
    {
    }

    // The frame returned last is handed out first.
    ghost predicate Popped(was: seq<nat>, r: Option<nat>)
      reads this
    {
      was != [] ==> r == Some(was[|was| - 1]) && recycled == was[..|was| - 1]
    }

    /** StackFrameAllocator::alloc. */
    method Alloc() returns (r: Option<nat>)
      requires Valid()
      modifies `current, `recycled
      ensures Valid()
      ensures r.None? <==> old(Free()) == {}
      ensures r.None? <==> old(Count()) == 0
      ensures Popped(old(recycled), r)
      ensures r.Some? ==> Count() == old(Count()) - 1
      ensures r.None? ==> Free() == {} && Busy() == old(Busy())
      ensures r.Some? ==> r.value in old(Free()) && Free() == old(Free()) - {r.value}
      ensures r.Some? ==> Busy() == old(Busy()) + {r.value}
    {
      hide Span;
      if |recycled| > 0 {
        var n := |recycled| - 1;
        var p := recycled[n];
        assert p in Free();
        recycled := recycled[..n];
        assert old(recycled) == recycled + [p];
        r := Some(p);
      } else if current == end {
        assert Free() == {};
        r := None;
      } else {
        assert current in Free();
        current := current + 1;
        r := Some(current - 1);
      }
    }

    /** frame_alloc: allocation, then the page-cleaning loop of FrameTracker::new. */
    method FrameAlloc() returns (r: Option<nat>)
      requires Valid()
      modifies this
      ensures Valid()
      ensures r.None? <==> old(Free()) == {}
      ensures r.None? <==> old(Count()) == 0
      ensures Popped(old(recycled), r)
      ensures r.Some? ==> Count() == old(Count()) - 1
      ensures r.None? ==> Free() == {} && Busy() == old(Busy()) && mem == old(mem)
      ensures r.Some? ==> r.value in old(Free()) && Free() == old(Free()) - {r.value}
      ensures r.Some? ==> Busy() == old(Busy()) + {r.value}
      ensures r.Some? ==> base <= r.value < |mem| && mem == old(mem)[r.value := ZeroFrame()]
    {
      FreeAndBusy();
      r := Alloc();
      if r.Some? {
        var p := r.value;
        var i := 0;
        ghost var free, busy, count := Free(), Busy(), Count();
        while i < 512
          invariant 0 <= i <= 512
          invariant Valid() && Free() == free && Busy() == busy && Count() == count
          invariant |mem| == |old(mem)| && mem == old(mem)[p := mem[p]] && Popped(old(recycled), r)
          invariant forall j :: 0 <= j < i ==> mem[p][j] == 0
        {
          mem := Poke(mem, p, i, 0);
          i := i + 1;
        }
        assert mem[p] == ZeroFrame();
      }
    }

    /** frame_dealloc, as FrameTracker's Drop calls it; both checks pass exactly for a busy frame. */
    method FrameDealloc(p: nat)
      requires Valid() && p in Busy()
      modifies `recycled
      ensures Valid()
      ensures Free() == old(Free()) + {p} && Busy() == old(Busy()) - {p} && Count() == old(Count()) + 1
      ensures recycled == old(recycled) + [p]
    {
      recycled := recycled + [p];
    }

    /** Writes one word of a frame: *pte = w. */
    method Write(p: nat, i: nat, w: nat)
      requires Valid() && p < |mem| && i < 512
      modifies `mem
      ensures Valid() && mem == Poke(old(mem), p, i, w)
      ensures Free() == old(Free()) && Busy() == old(Busy()) && Count() == old(Count())
    {
      mem := Poke(mem, p, i, w);
    }

    /** dst.copy_from_slice(src) over whole frames. */
    method CopyFrame(dst: nat, src: nat)
      requires Valid() && dst < |mem| && src < |mem|
      modifies `mem
      ensures Valid() && mem == old(mem)[dst := old(mem)[src]]
      ensures Free() == old(Free()) && Busy() == old(Busy()) && Count() == old(Count())
    {
      mem := mem[dst := mem[src]];
    }
  }
}
