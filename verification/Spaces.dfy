/** Address spaces as values: areas of pages over a page table, and how one page comes or goes. */
module Spaces {
  import opened Pages
  import opened PageTables

  datatype MapType = Identical | Framed

  // The pages [start, end) with one permission; a framed area holds a frame for each.
  datatype MapArea = MapArea(start: nat, end: nat, frames: map<nat, nat>, kind: MapType, perm: nat)

  // A subset of the R, W, X and U bits.
  predicate PermOk(perm: nat) {
    perm < 32 && perm % 2 == 0
  }

  ghost predicate Within(a: MapArea, v: nat) {
    a.start <= v < a.end
  }

  ghost predicate HasKey(a: MapArea, k: nat) {
    exists v: nat :: Within(a, v) && Key(v) == k
  }

  ghost function FrameFor(a: MapArea, v: nat): nat
    requires a.kind.Framed? ==> v in a.frames
  {
    if a.kind.Identical? then v else a.frames[v]
  }

  ghost predicate Shape(a: MapArea) {
    && a.start <= a.end <= a.start + KEY_LIMIT && PermOk(a.perm)
    && (a.kind.Framed? ==> forall v: nat :: v in a.frames <==> Within(a, v))
    && (a.kind.Identical? ==> a.frames == map[] && a.end <= PPN_LIMIT)
  }

  // Page v of a is mapped with a's permission to a's frame, which serves that page only.
  ghost predicate PageOk(m: map<nat, nat>, t: Tables, a: MapArea, v: nat)
    requires Shape(a) && Within(a, v)
  {
    && Key(v) in m && m[Key(v)] == Pte(FrameFor(a, v), a.perm + V)
    && (a.kind.Framed? ==> a.frames[v] in t.role && t.role[a.frames[v]] == Data(v))
  }

  ghost predicate AreaOk(m: map<nat, nat>, t: Tables, a: MapArea) {
    Shape(a) && forall v: nat :: Within(a, v) ==> PageOk(m, t, a, v)
  }

  ghost predicate Apart(a: MapArea, b: MapArea) {
    forall u: nat, v: nat :: Within(a, u) && Within(b, v) ==> Key(u) != Key(v)
  }

  // Each mapped key belongs to a fixed entry or to an area.
  ghost predicate Covered(areas: seq<MapArea>, fixed: map<nat, nat>, k: nat) {
    k in fixed || exists i :: 0 <= i < |areas| && HasKey(areas[i], k)
  }

  ghost predicate HoldsFrame(areas: seq<MapArea>, p: nat, v: nat) {
    exists i :: 0 <= i < |areas| && areas[i].kind.Framed? && v in areas[i].frames && areas[i].frames[v] == p
  }

  // The map m is exactly the fixed entries and the pages of the areas, which do not overlap,
  // and the data frames of the space are exactly those the areas hold.
  ghost predicate SpaceOk(m: map<nat, nat>, t: Tables, areas: seq<MapArea>, fixed: map<nat, nat>) {
    && (forall i :: 0 <= i < |areas| ==> AreaOk(m, t, areas[i]))
    && (forall i, j :: 0 <= i < j < |areas| ==> Apart(areas[i], areas[j]))
    && (forall k :: k in fixed ==> k in m && m[k] == fixed[k])
    && (forall i, k :: 0 <= i < |areas| && k in fixed ==> !HasKey(areas[i], k))
    && (forall k :: k in m ==> Covered(areas, fixed, k))
    && (forall p :: p in t.role && t.role[p].Data? ==> HoldsFrame(areas, p, t.role[p].vpn))
  }

  lemma KeysInRange(u: nat, v: nat)
    requires Key(u) == Key(v) && u <= v < u + KEY_LIMIT
    ensures u == v
  {
  }

  // ----- tables may be added

  lemma SpaceExtends(m: map<nat, nat>, t: Tables, t': Tables, areas: seq<MapArea>, fixed: map<nat, nat>, free: set<nat>)
    requires SpaceOk(m, t, areas, fixed) && Extends(t, t', free)
    ensures SpaceOk(m, t', areas, fixed)
  {
    forall i | 0 <= i < |areas| ensures AreaOk(m, t', areas[i]) {
      assert AreaOk(m, t, areas[i]);
      forall v: nat | Within(areas[i], v) ensures PageOk(m, t', areas[i], v) {
        assert PageOk(m, t, areas[i], v);
      }
    }
  }

  // ----- a fixed entry, mapped outside any area

  lemma AddFixed(m: map<nat, nat>, t: Tables, areas: seq<MapArea>, fixed: map<nat, nat>, k: nat, pte: nat)
    requires SpaceOk(m, t, areas, fixed) && k !in m
    ensures SpaceOk(m[k := pte], t, areas, fixed[k := pte])
  {
    var m' := m[k := pte];
    forall i | 0 <= i < |areas| ensures AreaOk(m', t, areas[i]) && !HasKey(areas[i], k) {
      assert AreaOk(m, t, areas[i]);
      forall v: nat | Within(areas[i], v) ensures PageOk(m', t, areas[i], v) && Key(v) != k {
        assert PageOk(m, t, areas[i], v);
      }
    }
    forall x | x in m' ensures Covered(areas, fixed[k := pte], x) {
      assert x != k ==> Covered(areas, fixed, x);
    }
  }

  // ----- the last area grows by one page

  ghost function Grown(a: MapArea, p: nat): MapArea {
    a.(end := a.end + 1, frames := if a.kind.Framed? then a.frames[a.end := p] else a.frames)
  }

  lemma EmptyAreaOk(m: map<nat, nat>, t: Tables, areas: seq<MapArea>, fixed: map<nat, nat>, a: MapArea)
    requires SpaceOk(m, t, areas, fixed)
    requires a.start == a.end && a.frames == map[] && PermOk(a.perm) && (a.kind.Identical? ==> a.end <= PPN_LIMIT)
    ensures SpaceOk(m, t, areas + [a], fixed)
  {
    var areas' := areas + [a];
    assert areas'[|areas|] == a;
    forall i | 0 <= i < |areas'| ensures AreaOk(m, t, areas'[i]) {
      assert i < |areas| ==> AreaOk(m, t, areas[i]);
    }
    forall k | k in m ensures Covered(areas', fixed, k) {
      assert Covered(areas, fixed, k);
      if k !in fixed {
        var i :| 0 <= i < |areas| && HasKey(areas[i], k);
        assert HasKey(areas'[i], k);
      }
    }
    forall p | p in t.role && t.role[p].Data? ensures HoldsFrame(areas', p, t.role[p].vpn) {
      assert HoldsFrame(areas, p, t.role[p].vpn);
      var i :| 0 <= i < |areas| && areas[i].kind.Framed? && t.role[p].vpn in areas[i].frames && areas[i].frames[t.role[p].vpn] == p;
      assert areas'[i] == areas[i];
    }
  }

  // The space once frame p serves page v.
  ghost function WithData(t: Tables, a: MapArea, v: nat, p: nat): Tables {
    if a.kind.Framed? then t.(role := t.role[p := Data(v)]) else t
  }

  // The entry of a new page.
  ghost function NewPte(a: MapArea, p: nat): nat
    requires PermOk(a.perm)
  {
    Pte(if a.kind.Framed? then p else a.end, a.perm + V)
  }

  ghost predicate CanGrow(m: map<nat, nat>, t: Tables, a: MapArea, p: nat) {
    && Key(a.end) !in m
    && a.end + 1 <= a.start + KEY_LIMIT
    && (a.kind.Framed? ==> p !in t.role)
    && (a.kind.Identical? ==> a.end + 1 <= PPN_LIMIT)
  }

  lemma GrownArea(m: map<nat, nat>, t: Tables, a: MapArea, p: nat)
    requires AreaOk(m, t, a) && CanGrow(m, t, a, p)
    ensures AreaOk(m[Key(a.end) := NewPte(a, p)], WithData(t, a, a.end, p), Grown(a, p))
  {
    hide Key, Pte;
    var m', t', a' := m[Key(a.end) := NewPte(a, p)], WithData(t, a, a.end, p), Grown(a, p);
    assert Shape(a');
    forall v: nat | Within(a', v) ensures PageOk(m', t', a', v) {
      if v < a.end { assert PageOk(m, t, a, v); }
    }
  }

  lemma OtherArea(m: map<nat, nat>, t: Tables, a: MapArea, b: MapArea, p: nat)
    requires AreaOk(m, t, b) && PermOk(a.perm) && CanGrow(m, t, a, p)
    ensures AreaOk(m[Key(a.end) := NewPte(a, p)], WithData(t, a, a.end, p), b)
    ensures !HasKey(b, Key(a.end))
  {
    hide Key, Pte;
    var m', t' := m[Key(a.end) := NewPte(a, p)], WithData(t, a, a.end, p);
    forall v: nat | Within(b, v) ensures PageOk(m', t', b, v) && Key(v) != Key(a.end) {
      assert PageOk(m, t, b, v);
    }
  }

  lemma AreaShape(m: map<nat, nat>, t: Tables, a: MapArea)
    requires AreaOk(m, t, a)
    ensures Shape(a) && a.start <= a.end
  {
  }

  lemma AddPage(m: map<nat, nat>, t: Tables, rest: seq<MapArea>, a: MapArea, fixed: map<nat, nat>, p: nat)
    requires SpaceOk(m, t, rest + [a], fixed) && PermOk(a.perm) && CanGrow(m, t, a, p)
    ensures SpaceOk(m[Key(a.end) := NewPte(a, p)], WithData(t, a, a.end, p), rest + [Grown(a, p)], fixed)
  {
    hide Key, NewPte, AreaOk, Shape;
    var m', t', a' := m[Key(a.end) := NewPte(a, p)], WithData(t, a, a.end, p), Grown(a, p);
    var areas, areas' := rest + [a], rest + [a'];
    assert areas[|rest|] == a && areas'[|rest|] == a';
    AreaShape(m, t, areas[|rest|]);
    GrownArea(m, t, a, p);
    forall i | 0 <= i < |rest| ensures AreaOk(m', t', areas'[i]) && Apart(areas'[i], a') && areas'[i] == areas[i] {
      assert AreaOk(m, t, areas[i]) && Apart(areas[i], areas[|rest|]);
      OtherArea(m, t, a, rest[i], p);
    }
    forall k | k in fixed ensures !HasKey(a', k) {
      assert !HasKey(areas[|rest|], k);
      forall v: nat | Within(a', v) ensures Key(v) != k { assert v == a.end || Within(a, v); }
    }
    forall k | k in m' ensures Covered(areas', fixed, k) { GrownCovers(m, rest, a, p, fixed, k); }
    forall x | x in t'.role && t'.role[x].Data? ensures HoldsFrame(areas', x, t'.role[x].vpn) {
      GrownHolds(t, rest, a, p, x);
    }
    forall i, k | 0 <= i < |areas'| && k in fixed ensures !HasKey(areas'[i], k) {
      assert !HasKey(areas[i], k);
    }
    forall i, j | 0 <= i < j < |areas'| ensures Apart(areas'[i], areas'[j]) {
      assert Apart(areas[i], areas[j]);
    }
  }

  lemma GrownCovers(m: map<nat, nat>, rest: seq<MapArea>, a: MapArea, p: nat, fixed: map<nat, nat>, k: nat)
    requires k == Key(a.end) || Covered(rest + [a], fixed, k)
    requires a.start <= a.end
    ensures Covered(rest + [Grown(a, p)], fixed, k)
  {
    var areas, areas' := rest + [a], rest + [Grown(a, p)];
    assert areas'[|rest|] == Grown(a, p);
    if k == Key(a.end) {
      assert Within(Grown(a, p), a.end);
      assert HasKey(areas'[|rest|], k);
    } else if k !in fixed {
      var i :| 0 <= i < |areas| && HasKey(areas[i], k);
      var v: nat :| Within(areas[i], v) && Key(v) == k;
      assert Within(areas'[i], v);
      assert HasKey(areas'[i], k);
    }
  }

  lemma GrownHolds(t: Tables, rest: seq<MapArea>, a: MapArea, p: nat, x: nat)
    requires var t' := WithData(t, a, a.end, p); x in t'.role && t'.role[x].Data?
    requires x in t.role && t.role[x].Data? ==> HoldsFrame(rest + [a], x, t.role[x].vpn)
    requires Shape(a) && (a.kind.Framed? ==> p !in t.role)
    ensures HoldsFrame(rest + [Grown(a, p)], x, WithData(t, a, a.end, p).role[x].vpn)
  {
    var areas, areas' := rest + [a], rest + [Grown(a, p)];
    assert areas'[|rest|] == Grown(a, p);
    if a.kind.Framed? && x == p {
      assert a.end in areas'[|rest|].frames && areas'[|rest|].frames[a.end] == p;
    } else {
      var v := t.role[x].vpn;
      var i :| 0 <= i < |areas| && areas[i].kind.Framed? && v in areas[i].frames && areas[i].frames[v] == x;
      assert i == |rest| ==> !Within(a, a.end);
      assert v in areas'[i].frames && areas'[i].frames[v] == x && areas'[i].kind.Framed?;
    }
  }

  // ----- an area loses its first page

  ghost function Shrunk(a: MapArea): MapArea {
    a.(start := a.start + 1, frames := a.frames - {a.start})
  }

  ghost function WithoutData(t: Tables, a: MapArea): Tables {
    if a.kind.Framed? && a.start in a.frames then t.(role := t.role - {a.frames[a.start]}) else t
  }

  lemma ShrunkArea(m: map<nat, nat>, t: Tables, a: MapArea)
    requires AreaOk(m, t, a) && a.start < a.end
    ensures AreaOk(m - {Key(a.start)}, WithoutData(t, a), Shrunk(a))
  {
    hide Pte;
    var m', t', a' := m - {Key(a.start)}, WithoutData(t, a), Shrunk(a);
    assert Within(a, a.start) && PageOk(m, t, a, a.start);
    forall v: nat | Within(a', v) ensures PageOk(m', t', a', v) {
      assert PageOk(m, t, a, v);
      if Key(v) == Key(a.start) { KeysInRange(a.start, v); }
    }
  }

  lemma OtherAreaOnShrink(m: map<nat, nat>, t: Tables, a: MapArea, b: MapArea)
    requires AreaOk(m, t, a) && AreaOk(m, t, b) && a.start < a.end && (Apart(a, b) || Apart(b, a))
    ensures AreaOk(m - {Key(a.start)}, WithoutData(t, a), b)
  {
    hide Pte, Key;
    var m', t' := m - {Key(a.start)}, WithoutData(t, a);
    assert Within(a, a.start) && PageOk(m, t, a, a.start);
    forall v: nat | Within(b, v) ensures PageOk(m', t', b, v) {
      assert PageOk(m, t, b, v);
    }
  }

  lemma RemovePage(m: map<nat, nat>, t: Tables, areas: seq<MapArea>, i: nat, fixed: map<nat, nat>)
    requires SpaceOk(m, t, areas, fixed) && i < |areas| && areas[i].start < areas[i].end
    ensures SpaceOk(m - {Key(areas[i].start)}, WithoutData(t, areas[i]), areas[i := Shrunk(areas[i])], fixed)
  {
    hide Key, AreaOk, Shape;
    var a := areas[i];
    var m', t', areas' := m - {Key(a.start)}, WithoutData(t, a), areas[i := Shrunk(a)];
    assert AreaOk(m, t, a);
    forall j | 0 <= j < |areas| ensures AreaOk(m', t', areas'[j]) {
      assert AreaOk(m, t, areas[j]);
      if j == i { ShrunkArea(m, t, a); } else {
        assert if j < i then Apart(areas[j], a) else Apart(a, areas[j]);
        OtherAreaOnShrink(m, t, a, areas[j]);
      }
    }
    forall j, k | 0 <= j < k < |areas'| ensures Apart(areas'[j], areas'[k]) {
      assert Apart(areas[j], areas[k]);
      forall u: nat, v: nat | Within(areas'[j], u) && Within(areas'[k], v) ensures Key(u) != Key(v) {
        assert Within(areas[j], u) && Within(areas[k], v);
      }
    }
    forall j, k | 0 <= j < |areas'| && k in fixed ensures !HasKey(areas'[j], k) {
      assert !HasKey(areas[j], k);
      forall v: nat | Within(areas'[j], v) ensures Key(v) != k { assert Within(areas[j], v); }
    }
    assert Within(a, a.start);
    assert HasKey(a, Key(a.start));
    forall k | k in m' ensures Covered(areas', fixed, k) {
      assert Covered(areas, fixed, k);
      ShrunkCovers(areas, i, fixed, k);
    }
    forall x | x in t'.role && t'.role[x].Data? ensures HoldsFrame(areas', x, t'.role[x].vpn) {
      assert HoldsFrame(areas, x, t.role[x].vpn);
      ShrunkHolds(t, areas, i, x);
    }
  }

  lemma ShrunkCovers(areas: seq<MapArea>, i: nat, fixed: map<nat, nat>, k: nat)
    requires i < |areas| && Covered(areas, fixed, k) && k != Key(areas[i].start)
    ensures Covered(areas[i := Shrunk(areas[i])], fixed, k)
  {
    var areas' := areas[i := Shrunk(areas[i])];
    if k !in fixed {
      var j :| 0 <= j < |areas| && HasKey(areas[j], k);
      var v: nat :| Within(areas[j], v) && Key(v) == k;
      assert Within(areas'[j], v);
      assert HasKey(areas'[j], k);
    }
  }

  lemma ShrunkHolds(t: Tables, areas: seq<MapArea>, i: nat, x: nat)
    requires i < |areas| && x in WithoutData(t, areas[i]).role
    requires t.role[x].Data? && HoldsFrame(areas, x, t.role[x].vpn)
    ensures HoldsFrame(areas[i := Shrunk(areas[i])], x, t.role[x].vpn)
  {
    var areas', v := areas[i := Shrunk(areas[i])], t.role[x].vpn;
    var j :| 0 <= j < |areas| && areas[j].kind.Framed? && v in areas[j].frames && areas[j].frames[v] == x;
    assert v in areas'[j].frames && areas'[j].frames[v] == x && areas'[j].kind.Framed?;
  }

  // ----- an area without pages is dropped

  lemma DropEmpty(m: map<nat, nat>, t: Tables, areas: seq<MapArea>, i: nat, fixed: map<nat, nat>)
    requires SpaceOk(m, t, areas, fixed) && i < |areas| && areas[i].start == areas[i].end
    ensures SpaceOk(m, t, areas[..i] + areas[i + 1..], fixed)
  {
    hide AreaOk, Apart;
    var areas' := areas[..i] + areas[i + 1..];
    assert forall j :: 0 <= j < |areas'| ==> areas'[j] == areas[if j < i then j else j + 1];
    forall k | k in m ensures Covered(areas', fixed, k) {
      assert Covered(areas, fixed, k);
      if k !in fixed {
        var j :| 0 <= j < |areas| && HasKey(areas[j], k);
        assert areas'[if j < i then j else j - 1] == areas[j];
      }
    }
    assert AreaOk(m, t, areas[i]);
    forall p | p in t.role && t.role[p].Data? ensures HoldsFrame(areas', p, t.role[p].vpn) {
      EmptyHoldsNothing(m, t, areas, i, p, t.role[p].vpn);
    }
  }

  lemma EmptyHoldsNothing(m: map<nat, nat>, t: Tables, areas: seq<MapArea>, i: nat, p: nat, v: nat)
    requires i < |areas| && AreaOk(m, t, areas[i]) && areas[i].start == areas[i].end
    requires HoldsFrame(areas, p, v)
    ensures HoldsFrame(areas[..i] + areas[i + 1..], p, v)
  {
    var areas' := areas[..i] + areas[i + 1..];
    assert !Within(areas[i], v);
    var j :| 0 <= j < |areas| && areas[j].kind.Framed? && v in areas[j].frames && areas[j].frames[v] == p;
    assert j < i ==> areas'[j] == areas[j];
    assert j > i ==> areas'[j - 1] == areas[j];
  }
}
