/** All address spaces of the machine together: over every run they are private memories. */
module Worlds {
  import opened Basics
  import opened Pages
  import opened Frames
  import opened Spaces
  import opened AddressSpaces
  import opened Views
  import opened SpaceSteps
  import opened Reclaims
  import PM = PrivateMemories

  // ----- who owns which frame

  // The spaces share no frame with each other or with the rest of the system; these are the frames in use.
  ghost predicate Partition(roles: map<nat, set<nat>>, foreign: set<nat>, busy: set<nat>) {
    && (forall i, j :: i in roles && j in roles && i != j ==> roles[i] !! roles[j])
    && (forall i :: i in roles ==> roles[i] !! foreign)
    && (forall p :: p in busy <==> p in foreign || exists i :: i in roles && p in roles[i])
  }

  lemma PartitionSet(roles: map<nat, set<nat>>, foreign: set<nat>, busy: set<nat>, pid: nat, own: set<nat>, busy': set<nat>)
    requires Partition(roles, foreign, busy)
    requires var was := if pid in roles then roles[pid] else {};
             own !! (busy - was) && busy' == (busy - was) + own
    ensures Partition(roles[pid := own], foreign, busy')
  {
    var roles' := roles[pid := own];
    var was := if pid in roles then roles[pid] else {};
    forall p | p in busy' ensures p in foreign || exists i :: i in roles' && p in roles'[i] {
      if p in own {
        assert pid in roles';
      } else if p !in foreign {
        var i :| i in roles && p in roles[i];
        assert i in roles';
      }
    }
    forall i, p | i in roles' && p in roles'[i] ensures p in busy' && p !in foreign && (i != pid ==> p !in own) {
      if i != pid { assert p in busy && p !in was; }
    }
  }

  lemma PartitionDrop(roles: map<nat, set<nat>>, foreign: set<nat>, busy: set<nat>, pid: nat)
    requires Partition(roles, foreign, busy) && pid in roles
    ensures Partition(roles - {pid}, foreign, busy - roles[pid])
  {
    var roles' := roles - {pid};
    forall p | p in busy - roles[pid] && p !in foreign ensures exists i :: i in roles' && p in roles'[i] {
      var i :| i in roles && p in roles[i];
      assert i in roles';
    }
  }

  // What one space owns may as well be counted to the rest of the system.
  lemma PartitionMove(roles: map<nat, set<nat>>, foreign: set<nat>, busy: set<nat>, pid: nat)
    requires Partition(roles, foreign, busy) && pid in roles
    ensures Partition(roles - {pid}, foreign + roles[pid], busy) && roles[pid] <= busy && foreign <= busy
  {
    var roles' := roles - {pid};
    forall p | p in busy && p !in foreign + roles[pid] ensures exists i :: i in roles' && p in roles'[i] {
      var i :| i in roles && p in roles[i];
      assert i in roles';
    }
  }

  // The frames of the rest of the system hold what they held.
  ghost predicate Untouched(foreign: map<nat, Frame>, mem: seq<Frame>) {
    forall p :: p in foreign ==> p < |mem| && mem[p] == foreign[p]
  }

  lemma StaysUntouched(foreign: map<nat, Frame>, roles: map<nat, set<nat>>, was: set<nat>, own: set<nat>,
                       f: set<nat>, b: set<nat>, mem: seq<Frame>, f': set<nat>, b': set<nat>, mem': seq<Frame>)
    requires Untouched(foreign, mem) && Partition(roles, foreign.Keys, b) && f !! b
    requires was == {} || exists pid :: pid in roles && was == roles[pid]
    requires Local(f, b, mem, was, own, f', b', mem')
    ensures Untouched(foreign, mem')
  {
  }

  // The objects of the spaces are pairwise different and share the machine.
  ghost predicate Distinct(sets: map<nat, MemorySet>, m: Machine) {
    && (forall i :: i in sets ==> sets[i].pt.m == m)
    && (forall i, j :: i in sets && j in sets && i != j ==> sets[i] != sets[j] && sets[i].pt != sets[j].pt)
  }

  // ----- one process changes, the others do not

  // The processes other than one, over the memory mem: what they own and what they see.
  ghost predicate Others(others: map<nat, MemorySet>, zombies: set<nat>, fixed: map<nat, nat>,
                         roles: map<nat, set<nat>>, st: PM.Processes, mem: seq<Frame>, b: set<nat>)
    reads others.Values, set s | s in others.Values :: s.pt
  {
    && roles.Keys == st.Keys == others.Keys
    && forall q :: q in others ==>
         && Sound(others[q], q in zombies, fixed, mem, b) && roles[q] == others[q].pt.t.role.Keys
         && st[q] == ProcessOf(others[q], q in zombies, mem)
  }

  // Their frames lie apart from those the step used.
  ghost predicate Aside(roles: map<nat, set<nat>>, f: set<nat>, b: set<nat>, was: set<nat>) {
    f !! b && forall q :: q in roles ==> roles[q] <= b && roles[q] !! was
  }

  lemma OthersKept(others: map<nat, MemorySet>, zombies: set<nat>, fixed: map<nat, nat>,
                   roles: map<nat, set<nat>>, st: PM.Processes, was: set<nat>, own: set<nat>,
                   f: set<nat>, b: set<nat>, mem: seq<Frame>, f': set<nat>, b': set<nat>, mem': seq<Frame>)
    requires Others(others, zombies, fixed, roles, st, mem, b) && Aside(roles, f, b, was)
    requires Local(f, b, mem, was, own, f', b', mem')
    ensures Others(others, zombies, fixed, roles, st, mem', b')
  {
    hide Sound, ProcessOf;
    forall q | q in others
      ensures Sound(others[q], q in zombies, fixed, mem', b')
           && TreeOk(mem, others[q].pt.t) && TreeOk(mem', others[q].pt.t)
           && ProcessOf(others[q], q in zombies, mem') == ProcessOf(others[q], q in zombies, mem)
    {
      var s := others[q];
      assert s.pt.t.role.Keys == roles[q];
      assert roles[q] <= b' && roles[q] !! (was + own + f);
      Kept(s, q in zombies, fixed, mem, b, mem', b');
    }
  }

  // The state of the world but for process pid.
  lemma OthersOf(w: World, pid: nat)
    requires w.Inv()
    ensures Others(w.sets - {pid}, w.zombies, w.Fixed(), w.Roles() - {pid}, w.Processes() - {pid}, w.m.mem, w.m.Busy())
    ensures Aside(w.Roles() - {pid}, w.m.Free(), w.m.Busy(), if pid in w.sets then w.sets[pid].pt.t.role.Keys else {})
  {
    hide Sound, ProcessOf, Machine.Valid, Machine.Free, Machine.Busy, Partition;
    w.m.FreeAndBusy();
    AsideOf(w.Roles(), w.foreign.Keys, w.m.Free(), w.m.Busy(), pid);
  }

  lemma AsideOf(roles: map<nat, set<nat>>, foreign: set<nat>, f: set<nat>, b: set<nat>, pid: nat)
    requires Partition(roles, foreign, b) && f !! b
    ensures Aside(roles - {pid}, f, b, if pid in roles then roles[pid] else {})
  {
  }

  // Process pid now has the space s.
  ghost predicate Given(w: World, pid: nat, s: MemorySet, dead: bool,
                        others: map<nat, MemorySet>, roles: map<nat, set<nat>>, st: PM.Processes, zombies: set<nat>)
    reads w, w.m, s, s.pt, others.Values, set s | s in others.Values :: s.pt
  {
    && w.sets == others[pid := s] && pid !in others
    && w.zombies == (if dead then zombies + {pid} else zombies - {pid})
    && Others(others, zombies, w.Fixed(), roles, st, w.m.mem, w.m.Busy())
    && Sound(s, dead, w.Fixed(), w.m.mem, w.m.Busy())
  }

  lemma GivenAt(w: World, pid: nat, s: MemorySet, dead: bool, others: map<nat, MemorySet>,
                roles: map<nat, set<nat>>, st: PM.Processes, zombies: set<nat>, q: nat)
    requires Given(w, pid, s, dead, others, roles, st, zombies) && q in w.sets && TreeOk(w.m.mem, s.pt.t)
    ensures Sound(w.sets[q], q in w.zombies, w.Fixed(), w.m.mem, w.m.Busy()) && TreeOk(w.m.mem, w.sets[q].pt.t)
    ensures q in roles[pid := s.pt.t.role.Keys] && q in st[pid := ProcessOf(s, dead, w.m.mem)]
    ensures w.sets[q].pt.t.role.Keys == roles[pid := s.pt.t.role.Keys][q]
    ensures ProcessOf(w.sets[q], q in w.zombies, w.m.mem) == st[pid := ProcessOf(s, dead, w.m.mem)][q]
  {
    if q != pid {
      assert w.sets[q] == others[q] && (q in w.zombies <==> q in zombies);
    }
  }

  lemma GivenSound(w: World, pid: nat, s: MemorySet, dead: bool,
                 others: map<nat, MemorySet>, roles: map<nat, set<nat>>, st: PM.Processes, zombies: set<nat>)
    requires Given(w, pid, s, dead, others, roles, st, zombies) && TreeOk(w.m.mem, s.pt.t)
    ensures w.AllSound()
  {
    hide Given, Sound, TreeOk;
    forall q | q in w.sets
      ensures Sound(w.sets[q], q in w.zombies, w.Fixed(), w.m.mem, w.m.Busy())
    {
      GivenAt(w, pid, s, dead, others, roles, st, zombies, q);
    }
  }

  lemma GivenRoles(w: World, pid: nat, s: MemorySet, dead: bool,
                 others: map<nat, MemorySet>, roles: map<nat, set<nat>>, st: PM.Processes, zombies: set<nat>)
    requires Given(w, pid, s, dead, others, roles, st, zombies) && TreeOk(w.m.mem, s.pt.t)
    requires w.sets.Keys == roles.Keys + {pid}
    ensures w.Roles() == roles[pid := s.pt.t.role.Keys]
  {
    hide Given, Sound, TreeOk;
    forall q | q in w.sets
      ensures w.sets[q].pt.t.role.Keys == roles[pid := s.pt.t.role.Keys][q]
    {
      GivenAt(w, pid, s, dead, others, roles, st, zombies, q);
    }
  }

  lemma GivenProcesses(w: World, pid: nat, s: MemorySet, dead: bool,
                 others: map<nat, MemorySet>, roles: map<nat, set<nat>>, st: PM.Processes, zombies: set<nat>)
    requires Given(w, pid, s, dead, others, roles, st, zombies) && TreeOk(w.m.mem, s.pt.t) && w.AllSound()
    requires w.sets.Keys == st.Keys + {pid}
    ensures w.Processes() == st[pid := ProcessOf(s, dead, w.m.mem)]
  {
    hide Given, Sound, TreeOk, World.AllSound, ProcessOf;
    forall q | q in w.sets
      ensures TreeOk(w.m.mem, w.sets[q].pt.t)
           && ProcessOf(w.sets[q], q in w.zombies, w.m.mem) == st[pid := ProcessOf(s, dead, w.m.mem)][q]
    {
      GivenAt(w, pid, s, dead, others, roles, st, zombies, q);
    }
  }

  lemma Replaced(w: World, pid: nat, s: MemorySet, dead: bool,
                 others: map<nat, MemorySet>, roles: map<nat, set<nat>>, st: PM.Processes, zombies: set<nat>)
    requires w.trampoline < PPN_LIMIT && w.m.Valid() && Distinct(w.sets, w.m) && zombies <= others.Keys + {pid}
    requires Given(w, pid, s, dead, others, roles, st, zombies)
    requires Partition(roles[pid := s.pt.t.role.Keys], w.foreign.Keys, w.m.Busy()) && Untouched(w.foreign, w.m.mem)
    ensures TreeOk(w.m.mem, s.pt.t)
    ensures w.Inv() && w.Processes() == st[pid := ProcessOf(s, dead, w.m.mem)]
  {
    GivenFacts(w, pid, s, dead, others, roles, st, zombies);
    hide Given, Sound, ProcessOf, Machine.Valid, Machine.Busy, Partition, Untouched, Distinct, TreeOk;
    hide World.AllSound, World.Processes, World.Roles;
    GivenSound(w, pid, s, dead, others, roles, st, zombies);
    GivenRoles(w, pid, s, dead, others, roles, st, zombies);
    GivenProcesses(w, pid, s, dead, others, roles, st, zombies);
  }

  lemma GivenFacts(w: World, pid: nat, s: MemorySet, dead: bool,
                   others: map<nat, MemorySet>, roles: map<nat, set<nat>>, st: PM.Processes, zombies: set<nat>)
    requires Given(w, pid, s, dead, others, roles, st, zombies) && zombies <= others.Keys + {pid}
    ensures TreeOk(w.m.mem, s.pt.t) && w.zombies <= w.sets.Keys
    ensures w.sets.Keys == roles.Keys + {pid} == st.Keys + {pid}
  {
  }

  // A step of process pid, from the state before it to the state after it.
  lemma Stepped(w: World, pid: nat, s: MemorySet, dead: bool,
                others: map<nat, MemorySet>, roles: map<nat, set<nat>>, st: PM.Processes, zombies: set<nat>,
                was: set<nat>, f: set<nat>, b: set<nat>, mem: seq<Frame>)
    requires w.trampoline < PPN_LIMIT && w.m.Valid() && Distinct(w.sets, w.m) && zombies <= others.Keys + {pid}
    requires Partition(roles, w.foreign.Keys, b) && Untouched(w.foreign, mem) && was == (if pid in roles then roles[pid] else {})
    requires Others(others, zombies, w.Fixed(), roles - {pid}, st - {pid}, mem, b) && Aside(roles - {pid}, f, b, was)
    requires Local(f, b, mem, was, s.pt.t.role.Keys, w.m.Free(), w.m.Busy(), w.m.mem)
    requires w.sets == others[pid := s] && pid !in others
    requires w.zombies == if dead then zombies + {pid} else zombies - {pid}
    requires Sound(s, dead, w.Fixed(), w.m.mem, w.m.Busy())
    ensures TreeOk(w.m.mem, s.pt.t)
    ensures w.Inv() && w.Processes() == st[pid := ProcessOf(s, dead, w.m.mem)]
  {
    hide Sound, ProcessOf, Machine.Valid, Machine.Free, Machine.Busy, Distinct, TreeOk, Partition, Untouched, Others;
    hide World.Inv, World.Processes;
    var own := s.pt.t.role.Keys;
    OthersKept(others, zombies, w.Fixed(), roles - {pid}, st - {pid}, was, own, f, b, mem, w.m.Free(), w.m.Busy(), w.m.mem);
    StaysUntouched(w.foreign, roles, was, own, f, b, mem, w.m.Free(), w.m.Busy(), w.m.mem);
    PartitionSet(roles, w.foreign.Keys, b, pid, own, w.m.Busy());
    assert roles[pid := own] == (roles - {pid})[pid := own];
    Replaced(w, pid, s, dead, others, roles - {pid}, st - {pid}, zombies);
    assert (st - {pid})[pid := ProcessOf(s, dead, w.m.mem)] == st[pid := ProcessOf(s, dead, w.m.mem)];
  }

  lemma OthersAt(w: World, roles: map<nat, set<nat>>, st: PM.Processes, zombies: set<nat>, q: nat)
    requires Others(w.sets, zombies, w.Fixed(), roles, st, w.m.mem, w.m.Busy()) && q in w.sets
    ensures Sound(w.sets[q], q in zombies, w.Fixed(), w.m.mem, w.m.Busy()) && TreeOk(w.m.mem, w.sets[q].pt.t)
    ensures q in roles && q in st && w.sets[q].pt.t.role.Keys == roles[q]
    ensures ProcessOf(w.sets[q], q in zombies, w.m.mem) == st[q]
  {
  }

  lemma OthersKeys(w: World, roles: map<nat, set<nat>>, st: PM.Processes, zombies: set<nat>)
    requires Others(w.sets, zombies, w.Fixed(), roles, st, w.m.mem, w.m.Busy())
    ensures roles.Keys == st.Keys == w.sets.Keys
  {
    hide Sound, ProcessOf;
  }

  lemma OthersAreSound(w: World, roles: map<nat, set<nat>>, st: PM.Processes, zombies: set<nat>)
    requires Others(w.sets, zombies, w.Fixed(), roles, st, w.m.mem, w.m.Busy())
    requires forall q :: q in w.sets ==> (q in w.zombies <==> q in zombies)
    ensures w.AllSound() && w.Roles() == roles
  {
    hide Others, Sound, TreeOk, ProcessOf;
    OthersKeys(w, roles, st, zombies);
    forall q | q in w.sets
      ensures Sound(w.sets[q], q in w.zombies, w.Fixed(), w.m.mem, w.m.Busy()) && w.sets[q].pt.t.role.Keys == roles[q]
    {
      OthersAt(w, roles, st, zombies, q);
    }
  }

  lemma OthersAreAll(w: World, roles: map<nat, set<nat>>, st: PM.Processes, zombies: set<nat>)
    requires Others(w.sets, zombies, w.Fixed(), roles, st, w.m.mem, w.m.Busy()) && w.AllSound()
    requires forall q :: q in w.sets ==> (q in w.zombies <==> q in zombies)
    ensures w.Processes() == st
  {
    hide Others, Sound, TreeOk, ProcessOf, World.AllSound;
    OthersKeys(w, roles, st, zombies);
    forall q | q in w.sets
      ensures TreeOk(w.m.mem, w.sets[q].pt.t) && ProcessOf(w.sets[q], q in w.zombies, w.m.mem) == st[q]
    {
      OthersAt(w, roles, st, zombies, q);
    }
  }

  // Process pid is gone, and its frames are free.
  lemma Dropped(w: World, pid: nat, roles: map<nat, set<nat>>, st: PM.Processes, zombies: set<nat>,
                f: set<nat>, b: set<nat>, mem: seq<Frame>)
    requires w.trampoline < PPN_LIMIT && w.m.Valid() && Distinct(w.sets, w.m) && zombies <= w.sets.Keys + {pid} && pid !in w.sets
    requires Partition(roles, w.foreign.Keys, b) && Untouched(w.foreign, mem) && pid in roles && w.zombies == zombies - {pid}
    requires Others(w.sets, zombies, w.Fixed(), roles - {pid}, st - {pid}, mem, b) && Aside(roles - {pid}, f, b, roles[pid])
    requires Local(f, b, mem, roles[pid], {}, w.m.Free(), w.m.Busy(), w.m.mem)
    ensures w.Inv() && w.Processes() == st - {pid}
  {
    hide Sound, ProcessOf, Machine.Valid, Machine.Free, Machine.Busy, Distinct, TreeOk, Partition, Untouched, Others;
    hide World.Processes, World.AllSound, World.Roles;
    OthersKept(w.sets, zombies, w.Fixed(), roles - {pid}, st - {pid}, roles[pid], {}, f, b, mem,
               w.m.Free(), w.m.Busy(), w.m.mem);
    StaysUntouched(w.foreign, roles, roles[pid], {}, f, b, mem, w.m.Free(), w.m.Busy(), w.m.mem);
    PartitionDrop(roles, w.foreign.Keys, b, pid);
    assert w.m.Busy() == b - roles[pid];
    OthersAreSound(w, roles - {pid}, st - {pid}, zombies);
    OthersAreAll(w, roles - {pid}, st - {pid}, zombies);
  }

  // A process that does not exist yet.
  lemma NotYet(w: World, pid: nat)
    requires w.Inv() && pid !in w.Processes()
    ensures w.m.Valid() && w.trampoline < PPN_LIMIT && w.zombies <= w.sets.Keys && w.AllSound() && Distinct(w.sets, w.m)
    ensures Partition(w.Roles(), w.foreign.Keys, w.m.Busy()) && Untouched(w.foreign, w.m.mem)
    ensures pid !in w.Roles() && pid !in w.sets && w.sets - {pid} == w.sets
  {
    hide Partition, Machine.Valid, Machine.Busy, Sound, ProcessOf;
  }

  lemma DistinctStill(sets: map<nat, MemorySet>, m: Machine, pid: nat, s: MemorySet)
    requires Distinct(sets, m) && s.pt.m == m
    requires forall q :: q in sets ==> sets[q] != s && sets[q].pt != s.pt
    ensures Distinct(sets[pid := s], m)
  {
  }

  lemma FewerDistinct(sets: map<nat, MemorySet>, m: Machine, pid: nat)
    requires Distinct(sets, m)
    ensures Distinct(sets - {pid}, m)
  {
  }

  // A zombie has nothing but its tables.
  lemma ZombieFacts(w: World, pid: nat)
    requires w.Inv() && pid in w.sets && pid in w.Processes() && w.Processes()[pid].Zombie?
    ensures pid in w.zombies && w.sets[pid].pt.m == w.m && w.sets[pid].pt.Valid()
    ensures w.sets[pid].pt.t.role.Keys == TableFrames(w.sets[pid].pt.t)
    ensures w.sets[pid].pt.t.role.Keys <= w.m.Busy() && w.m.Free() !! w.m.Busy()
  {
    hide World.Inv, World.Processes, World.AllSound, Distinct, World.Roles, Partition, TreeOk, Machine.Valid, View;
    hide Machine.Busy, Machine.Free, RegionsOf, TableOf, SpaceOk;
    Opened(w, pid);
    w.m.FreeAndBusy();
  }

  lemma TablesReturned(f: set<nat>, b: set<nat>, mem: seq<Frame>, was: set<nat>, f': set<nat>, b': set<nat>)
    requires was <= b && f !! b && f' == f + was && b' == b - was
    ensures Local(f, b, mem, was, {}, f', b', mem)
  {
  }

  lemma ZombieSeen(s: MemorySet, mem: seq<Frame>)
    requires TreeOk(mem, s.pt.t)
    ensures ProcessOf(s, true, mem) == PM.Zombie
  {
  }

  lemma MapSplit<T>(m: map<nat, T>, k: nat)
    requires k in m
    ensures m == (m - {k})[k := m[k]]
  {
  }

  // Process pid and its space, before a step.
  lemma Opened(w: World, pid: nat)
    requires w.Inv() && pid in w.sets
    ensures w.m.Valid() && w.trampoline < PPN_LIMIT && w.zombies <= w.sets.Keys && w.AllSound() && Distinct(w.sets, w.m)
    ensures Partition(w.Roles(), w.foreign.Keys, w.m.Busy()) && Untouched(w.foreign, w.m.mem)
    ensures pid in w.Roles() && pid in w.Processes()
    ensures var s := w.sets[pid];
            && s.pt.m == w.m && w.Roles()[pid] == s.pt.t.role.Keys
            && Sound(s, pid in w.zombies, w.Fixed(), w.m.mem, w.m.Busy()) && TreeOk(w.m.mem, s.pt.t)
            && w.Processes()[pid] == ProcessOf(s, pid in w.zombies, w.m.mem)
  {
    assert Sound(w.sets[pid], pid in w.zombies, w.Fixed(), w.m.mem, w.m.Busy());
    assert TreeOk(w.m.mem, w.sets[pid].pt.t);
    hide TreeOk, Partition, ProcessOf, Sound, Machine.Valid, Machine.Busy, Machine.Free;
  }

  // The same for a process that still runs.
  lemma OpenedLive(w: World, pid: nat)
    requires w.Inv() && pid in w.sets && PM.LiveAt(w.Processes(), pid)
    ensures TreeOk(w.m.mem, w.sets[pid].pt.t) && w.sets[pid].pt.m == w.m
    ensures pid !in w.zombies && Ready(w.sets[pid], w.Fixed()) && Seen(w.sets[pid]) == w.Processes()[pid]
  {
    hide World.Inv, World.Processes, World.AllSound, Distinct, World.Roles, Sound, Partition, TreeOk, Machine.Valid, View;
    hide Machine.Busy, Machine.Free, Key, Pte, PM.Reserved, RegionsOf, TableOf;
    Opened(w, pid);
  }

  lemma ApartFrom(w: World, pid: nat)
    requires Distinct(w.sets, w.m) && pid in w.sets
    ensures forall q :: q in w.sets - {pid} ==> w.sets[q] != w.sets[pid] && w.sets[q].pt != w.sets[pid].pt
    ensures w.sets == (w.sets - {pid})[pid := w.sets[pid]]
  {
    MapSplit(w.sets, pid);
  }

  lemma ReadySound(s: MemorySet, fixed: map<nat, nat>)
    requires Ready(s, fixed)
    ensures s.pt.m.Valid() && Sound(s, false, fixed, s.pt.m.mem, s.pt.m.Busy())
    ensures TreeOk(s.pt.m.mem, s.pt.t) && Seen(s) == ProcessOf(s, false, s.pt.m.mem)
  {
  }

  ghost predicate Torn(s: MemorySet, m: Machine, vpn: nat)
    reads s, s.pt, m
  {
    s.pt.m == m && s.pt.Valid() && Stale(s, vpn)
  }

  // The others, one by one.
  lemma AmongOthers(w: World, pid: nat, others: map<nat, MemorySet>, roles: map<nat, set<nat>>, st: PM.Processes, q: nat)
    requires pid in w.sets && w.sets == others[pid := w.sets[pid]] && q in w.sets && q != pid
    requires Others(others, w.zombies, w.Fixed(), roles, st, w.m.mem, w.m.Busy())
    ensures Sound(w.sets[q], q in w.zombies, w.Fixed(), w.m.mem, w.m.Busy()) && TreeOk(w.m.mem, w.sets[q].pt.t)
    ensures q in roles && w.sets[q].pt.t.role.Keys == roles[q]
    ensures q in st && ProcessOf(w.sets[q], q in w.zombies, w.m.mem) == st[q]
  {
    assert w.sets[q] == others[q];
  }

  lemma OtherKeys(w: World, others: map<nat, MemorySet>, roles: map<nat, set<nat>>, st: PM.Processes)
    requires Others(others, w.zombies, w.Fixed(), roles, st, w.m.mem, w.m.Busy())
    ensures roles.Keys == st.Keys == others.Keys
  {
    hide Sound, ProcessOf;
  }

  lemma RolesBut(w: World, pid: nat, others: map<nat, MemorySet>, roles: map<nat, set<nat>>, st: PM.Processes)
    requires pid in w.sets && w.sets == others[pid := w.sets[pid]] && pid !in others && pid in roles
    requires Others(others, w.zombies, w.Fixed(), roles - {pid}, st, w.m.mem, w.m.Busy())
    ensures w.Roles() == roles[pid := w.sets[pid].pt.t.role.Keys]
  {
    hide Others, Sound, TreeOk, ProcessOf;
    OtherKeys(w, others, roles - {pid}, st);
    forall q | q in w.sets && q != pid ensures w.sets[q].pt.t.role.Keys == roles[q] {
      AmongOthers(w, pid, others, roles - {pid}, st, q);
    }
  }

  lemma SoundBut(w: World, pid: nat, others: map<nat, MemorySet>, roles: map<nat, set<nat>>, st: PM.Processes)
    requires pid in w.sets && w.sets == others[pid := w.sets[pid]]
    requires Others(others, w.zombies, w.Fixed(), roles, st, w.m.mem, w.m.Busy())
    ensures forall q :: q in w.sets && q != pid ==> Sound(w.sets[q], q in w.zombies, w.Fixed(), w.m.mem, w.m.Busy())
  {
    hide Others, Sound, TreeOk, ProcessOf;
    forall q | q in w.sets && q != pid ensures Sound(w.sets[q], q in w.zombies, w.Fixed(), w.m.mem, w.m.Busy()) {
      AmongOthers(w, pid, others, roles, st, q);
    }
  }

  lemma SeenBut(w: World, pid: nat, others: map<nat, MemorySet>, roles: map<nat, set<nat>>, st: PM.Processes)
    requires pid in w.sets && w.sets == others[pid := w.sets[pid]] && pid !in others && w.ApartBut(pid)
    requires Others(others, w.zombies, w.Fixed(), roles, st, w.m.mem, w.m.Busy())
    ensures w.ProcessesBut(pid) == st
  {
    hide Others, Sound, TreeOk, ProcessOf, World.ApartBut;
    OtherKeys(w, others, roles, st);
    forall q | q in w.sets && q != pid
      ensures TreeOk(w.m.mem, w.sets[q].pt.t) && ProcessOf(w.sets[q], q in w.zombies, w.m.mem) == st[q]
    {
      AmongOthers(w, pid, others, roles, st, q);
    }
  }

  // A step of process pid after which its own space need not be intact.
  lemma SteppedBut(w: World, pid: nat, others: map<nat, MemorySet>, roles: map<nat, set<nat>>, st: PM.Processes,
                   was: set<nat>, f: set<nat>, b: set<nat>, mem: seq<Frame>)
    requires w.trampoline < PPN_LIMIT && w.m.Valid() && w.zombies <= w.sets.Keys && pid in w.sets && pid !in w.zombies
    requires Distinct(w.sets, w.m) && w.sets == others[pid := w.sets[pid]] && pid !in others
    requires Partition(roles, w.foreign.Keys, b) && Untouched(w.foreign, mem) && pid in roles && was == roles[pid]
    requires Others(others, w.zombies, w.Fixed(), roles - {pid}, st - {pid}, mem, b) && Aside(roles - {pid}, f, b, was)
    requires Local(f, b, mem, was, w.sets[pid].pt.t.role.Keys, w.m.Free(), w.m.Busy(), w.m.mem)
    ensures w.ApartBut(pid) && w.ProcessesBut(pid) == st - {pid}
  {
    hide Sound, ProcessOf, Machine.Valid, Machine.Free, Machine.Busy, Distinct, TreeOk, Partition, Untouched, Others;
    hide World.Roles, World.ProcessesBut;
    var own := w.sets[pid].pt.t.role.Keys;
    OthersKept(others, w.zombies, w.Fixed(), roles - {pid}, st - {pid}, was, own, f, b, mem,
               w.m.Free(), w.m.Busy(), w.m.mem);
    StaysUntouched(w.foreign, roles, was, own, f, b, mem, w.m.Free(), w.m.Busy(), w.m.mem);
    PartitionSet(roles, w.foreign.Keys, b, pid, own, w.m.Busy());
    RolesBut(w, pid, others, roles, st - {pid});
    SoundBut(w, pid, others, roles - {pid}, st - {pid});
    SeenBut(w, pid, others, roles - {pid}, st - {pid});
  }

  lemma ButFacts(w: World, pid: nat)
    requires w.ApartBut(pid)
    ensures pid in w.sets && w.sets[pid].pt.m == w.m
    ensures var own := w.sets[pid].pt.t.role.Keys;
            && Partition(w.Roles() - {pid}, w.foreign.Keys + own, w.m.Busy())
            && own <= w.m.Busy() && w.foreign.Keys <= w.m.Busy()
            && (forall p :: p in w.foreign.Keys + own ==> p < |w.m.mem|)
            && w.m.Free() !! w.m.Busy()
  {
    hide Sound, Machine.Valid, Machine.Free, Machine.Busy, Partition, Untouched;
    w.m.FreeAndBusy();
    assert pid in w.Roles() && w.Roles()[pid] == w.sets[pid].pt.t.role.Keys;
    PartitionMove(w.Roles(), w.foreign.Keys, w.m.Busy(), pid);
  }

  lemma SeenWithout(v: World, w: World, pid: nat)
    requires w.ApartBut(pid) && w.Owned() && v.m == w.m && v.trampoline == w.trampoline
    requires v.sets == w.sets - {pid} && v.zombies == w.zombies
    requires v.repr == w.repr - {w.sets[pid], w.sets[pid].pt} && v !in v.repr
    requires Partition(w.Roles() - {pid}, v.foreign.Keys, w.m.Busy()) && Untouched(v.foreign, w.m.mem)
    ensures v.Inv() && v.Owned() && v.Processes() == w.ProcessesBut(pid)
  {
    hide Sound, ProcessOf, Machine.Valid, Machine.Busy, Partition, Untouched;
    assert v.Roles() == w.Roles() - {pid};
  }

  // A space that is not intact breaks the invariant of the whole.
  lemma Broken(w: World, pid: nat)
    requires pid in w.sets && pid !in w.zombies && w.sets[pid].pt.m == w.m && !Ready(w.sets[pid], w.Fixed())
    ensures !w.Inv()
  {
  }

  class World {
    const m: Machine
    const trampoline: nat
    var sets: map<nat, MemorySet>
    var zombies: set<nat>
    // The frames that were in use before the first process, the kernel's own, with what they hold.
    ghost const foreign: map<nat, Frame>
    // The objects of the spaces, present and past.
    ghost var repr: set<object>

    ghost predicate Owned()
      reads `sets, `repr
    {
      this !in repr && m !in repr && forall pid :: pid in sets ==> sets[pid] in repr && sets[pid].pt in repr
    }

    ghost function Fixed(): map<nat, nat> { Trampoline(trampoline) }

    ghost function Roles(): map<nat, set<nat>>
      reads this, set s | s in sets.Values :: s.pt
    {
      map pid | pid in sets :: sets[pid].pt.t.role.Keys
    }

    ghost predicate AllSound()
      reads this, m, sets.Values, set s | s in sets.Values :: s.pt
    {
      forall pid :: pid in sets ==> Sound(sets[pid], pid in zombies, Fixed(), m.mem, m.Busy())
    }

    ghost predicate Inv()
      reads this, m, sets.Values, set s | s in sets.Values :: s.pt
    {
      && trampoline < PPN_LIMIT && m.Valid() && zombies <= sets.Keys
      && Distinct(sets, m) && AllSound() && Partition(Roles(), foreign.Keys, m.Busy()) && Untouched(foreign, m.mem)
    }

    ghost function Processes(): PM.Processes
      requires AllSound()
      reads this, m, sets.Values, set s | s in sets.Values :: s.pt
    {
      map pid | pid in sets :: ProcessOf(sets[pid], pid in zombies, m.mem)
    }

    constructor (m: Machine, trampoline: nat)
      requires m.Valid() && trampoline < PPN_LIMIT
      ensures this.m == m && Inv() && Processes() == map[] && Owned() && repr == {} && foreign.Keys == m.Busy()
    {
      m.FreeAndBusy();
      this.m := m;
      foreign := map p | p in m.Busy() :: m.mem[p];
      this.trampoline := trampoline;
      sets := map[];
      zombies := {};
      repr := {};
    }

    /** The same machine seen without process pid, whose frames now count to the rest of the system. */
    constructor Without(w: World, pid: nat)
      requires w.ApartBut(pid) && w.Owned()
      ensures m == w.m && sets == w.sets - {pid} && repr == w.repr - {w.sets[pid], w.sets[pid].pt}
      ensures foreign.Keys == w.foreign.Keys + w.sets[pid].pt.t.role.Keys
      ensures forall p :: p in foreign ==> p < |m.mem| && foreign[p] == m.mem[p]
      ensures Inv() && Owned() && Processes() == w.ProcessesBut(pid)
    {
      hide Inv, ApartBut, Owned, Processes, ProcessesBut, Roles, Partition, Machine.Busy, Machine.Free;
      ButFacts(w, pid);
      m := w.m;
      trampoline := w.trampoline;
      foreign := map p | p in w.foreign.Keys + w.sets[pid].pt.t.role.Keys :: w.m.mem[p];
      sets := w.sets - {pid};
      zombies := w.zombies;
      repr := w.repr - {w.sets[pid], w.sets[pid].pt};
      new;
      assert foreign.Keys == w.foreign.Keys + w.sets[pid].pt.t.role.Keys;
      SeenWithout(this, w, pid);
    }

    // The spaces share no frame, and all but that of pid are intact.
    ghost predicate ApartBut(pid: nat)
      reads this, m, sets.Values, set s | s in sets.Values :: s.pt
    {
      && trampoline < PPN_LIMIT && m.Valid() && zombies <= sets.Keys && pid in sets && pid !in zombies
      && Distinct(sets, m) && Partition(Roles(), foreign.Keys, m.Busy()) && Untouched(foreign, m.mem)
      && forall q :: q in sets && q != pid ==> Sound(sets[q], q in zombies, Fixed(), m.mem, m.Busy())
    }

    // What the processes other than pid see.
    ghost function ProcessesBut(pid: nat): PM.Processes
      requires ApartBut(pid)
      reads this, m, sets.Values, set s | s in sets.Values :: s.pt
    {
      map q | q in sets && q != pid :: ProcessOf(sets[q], q in zombies, m.mem)
    }

    // From st, the operation was a step on private memories and answered r.
    ghost predicate Follows(st: PM.Processes, op: PM.Op, r: int)
      reads this, m, sets.Values, set s | s in sets.Values :: s.pt
    {
      PM.Enabled(st, op) && Inv() && Processes() == PM.Step(st, op) && r == PM.Answer(st, op)
    }

    // Page vpn of process pid is torn; the frames are apart as ever, and the others as they were in st.
    ghost predicate LeftTorn(st: PM.Processes, pid: nat, vpn: nat)
      reads this, m, sets.Values, set s | s in sets.Values :: s.pt
    {
      && !Inv() && ApartBut(pid) && ProcessesBut(pid) == st - {pid}
      && Torn(sets[pid], m, vpn)
    }

    /**
     insert_framed_area for process pid. It is a step on private memories exactly when the range was free or
     its first page was taken; otherwise that page leads to a frame that the next to ask may get. The others
     notice nothing yet.
     */
    method Insert(pid: nat, startVa: nat, endVa: nat, perm: nat) returns (r: Option<int>)
      requires Inv() && pid in sets && PM.Asked(Processes(), pid, startVa, endVa, perm)
      modifies sets[pid], sets[pid].pt, m
      ensures r.None? ==> m.Free() == {}
      ensures r.Some? && PM.Enabled(old(Processes()), PM.Insert(pid, startVa, endVa, perm)) ==>
                Follows(old(Processes()), PM.Insert(pid, startVa, endVa, perm), r.value)
      ensures r.Some? && !PM.Enabled(old(Processes()), PM.Insert(pid, startVa, endVa, perm)) ==>
                r.value == -1 && LeftTorn(old(Processes()), pid, Floor(startVa))
    {
      hide Sound, Machine.Valid, Machine.Free, Machine.Busy, TreeOk, Partition, Others, Aside, Local, Ready, Seen;
      hide Distinct, Untouched, ProcessOf, Key, Floor, Ceil, Inv, Roles, AllSound, Processes;
      hide PM.Vacant, PM.Taken, PM.Inserted, Stale;
      Opened(this, pid);
      OpenedLive(this, pid);
      ApartFrom(this, pid);
      OthersOf(this, pid);
      var s := sets[pid];
      ghost var others, roles, st := sets - {pid}, Roles(), Processes();
      ghost var f, b, mem, was := m.Free(), m.Busy(), m.mem, s.pt.t.role.Keys;
      r := SpaceSteps.Insert(s, startVa, endVa, perm, Fixed());
      if r.Some? {
        if Ready(s, Fixed()) {
          ReadySound(s, Fixed());
          Stepped(this, pid, s, false, others, roles, st, zombies, was, f, b, mem);
        } else {
          Broken(this, pid);
          SteppedBut(this, pid, others, roles, st, was, f, b, mem);
        }
      }
    }

    /** remove_framed_area for process pid. */
    method Remove(pid: nat, startVa: nat, endVa: nat) returns (r: int)
      requires Inv() && pid in sets && PM.Enabled(Processes(), PM.Remove(pid, startVa, endVa))
      modifies sets[pid], sets[pid].pt, m
      ensures Inv() && Processes() == PM.Step(old(Processes()), PM.Remove(pid, startVa, endVa))
      ensures r == PM.Answer(old(Processes()), PM.Remove(pid, startVa, endVa))
    {
      hide Sound, Machine.Valid, Machine.Free, Machine.Busy, TreeOk, Partition, Others, Aside, Local, Ready, Seen;
      hide Distinct, Untouched, ProcessOf, Key, Floor, Ceil, Inv, Roles, AllSound, Processes;
      hide PM.Removed, PM.RemoveAnswer;
      Opened(this, pid);
      OpenedLive(this, pid);
      ApartFrom(this, pid);
      OthersOf(this, pid);
      var s := sets[pid];
      ghost var others, roles, st := sets - {pid}, Roles(), Processes();
      ghost var f, b, mem, was := m.Free(), m.Busy(), m.mem, s.pt.t.role.Keys;
      r := SpaceSteps.Remove(s, startVa, endVa, Fixed());
      ReadySound(s, Fixed());
      Stepped(this, pid, s, false, others, roles, st, zombies, was, f, b, mem);
    }

    /** A store into the memory of process pid. */
    method Store(pid: nat, va: nat, word: nat)
      requires Inv() && pid in sets && PM.Enabled(Processes(), PM.Store(pid, va, word))
      modifies m
      ensures Inv() && Processes() == PM.Step(old(Processes()), PM.Store(pid, va, word))
    {
      hide Sound, Machine.Valid, Machine.Free, Machine.Busy, TreeOk, Partition, Others, Aside, Local, Ready, Seen;
      hide Distinct, Untouched, ProcessOf, Key, Floor, Ceil, Inv, Roles, AllSound, Processes;
      hide PM.Stored;
      Opened(this, pid);
      OpenedLive(this, pid);
      ApartFrom(this, pid);
      OthersOf(this, pid);
      var s := sets[pid];
      ghost var others, roles, st := sets - {pid}, Roles(), Processes();
      ghost var f, b, mem, was := m.Free(), m.Busy(), m.mem, s.pt.t.role.Keys;
      SpaceSteps.Store(s, va, word, Fixed());
      ReadySound(s, Fixed());
      Stepped(this, pid, s, false, others, roles, st, zombies, was, f, b, mem);
    }

    /** A load from the memory of process pid. */
    method Load(pid: nat, va: nat) returns (word: nat)
      requires Inv() && pid in sets && PM.Enabled(Processes(), PM.Load(pid, va))
      ensures word == old(PM.Answer(Processes(), PM.Load(pid, va)))
    {
      hide Sound, Machine.Valid, Machine.Free, Machine.Busy, TreeOk, Partition, Others, Aside, Local, Ready, Seen;
      hide Distinct, Untouched, ProcessOf, Key, Floor, Ceil, Inv, Roles, AllSound, Processes;
      Opened(this, pid);
      OpenedLive(this, pid);
      word := SpaceSteps.Load(sets[pid], va, Fixed());
    }

    /** A new process, as yet without areas. */
    method New(pid: nat) returns (ok: bool)
      requires Inv() && Owned() && PM.Enabled(Processes(), PM.New(pid))
      modifies `sets, `repr, m
      ensures !ok ==> m.Free() == {}
      ensures ok ==> Inv() && Processes() == PM.Step(old(Processes()), PM.New(pid))
      ensures ok ==> Owned() && fresh(repr - old(repr))
    {
      hide Sound, Machine.Valid, Machine.Free, Machine.Busy, TreeOk, Partition, Others, Aside, Local, Ready, Seen;
      hide Distinct, Untouched, ProcessOf, Key, Floor, Ceil, Inv, Roles, AllSound, Processes;
      NotYet(this, pid);
      OthersOf(this, pid);
      ghost var others, roles, st := sets - {pid}, Roles(), Processes();
      ghost var f, b, mem := m.Free(), m.Busy(), m.mem;
      var r := SpaceSteps.New(m, trampoline);
      if r.None? {
        return false;
      }
      var s := r.value;
      ReadySound(s, Fixed());
      DistinctStill(sets, m, pid, s);
      repr := repr + {s, s.pt};
      sets := sets[pid := s];
      Stepped(this, pid, s, false, others, roles, st, zombies, {}, f, b, mem);
      ok := true;
    }

    /** fork: the child gets a copy of the parent's memory. */
    method Fork(pid: nat, child: nat) returns (ok: bool)
      requires Inv() && Owned() && pid in sets && PM.Enabled(Processes(), PM.Fork(pid, child))
      modifies `sets, `repr, m
      ensures !ok ==> m.Free() == {}
      ensures ok ==> Inv() && Processes() == PM.Step(old(Processes()), PM.Fork(pid, child))
      ensures ok ==> Owned() && fresh(repr - old(repr))
    {
      hide Sound, Machine.Valid, Machine.Free, Machine.Busy, TreeOk, Partition, Others, Aside, Local, Ready, Seen;
      hide Distinct, Untouched, ProcessOf, Key, Floor, Ceil, Inv, Roles, AllSound, Processes;
      Opened(this, pid);
      OpenedLive(this, pid);
      NotYet(this, child);
      OthersOf(this, child);
      ghost var others, roles, st := sets - {child}, Roles(), Processes();
      ghost var f, b, mem := m.Free(), m.Busy(), m.mem;
      var r := SpaceSteps.Fork(sets[pid], trampoline);
      if r.None? {
        return false;
      }
      var s := r.value;
      ReadySound(s, Fixed());
      DistinctStill(sets, m, child, s);
      repr := repr + {s, s.pt};
      sets := sets[child := s];
      Stepped(this, child, s, false, others, roles, st, zombies, {}, f, b, mem);
      ok := true;
    }

    /** exit: the data pages go back. */
    method Exit(pid: nat)
      requires Inv() && pid in sets && PM.Enabled(Processes(), PM.Exit(pid))
      modifies `zombies, sets[pid], sets[pid].pt, m
      ensures Inv() && Processes() == PM.Step(old(Processes()), PM.Exit(pid))
    {
      hide Sound, Machine.Valid, Machine.Free, Machine.Busy, TreeOk, Partition, Others, Aside, Local, Ready, Seen;
      hide Distinct, Untouched, ProcessOf, Key, Floor, Ceil, Inv, Roles, AllSound, Processes;
      Opened(this, pid);
      OpenedLive(this, pid);
      ApartFrom(this, pid);
      OthersOf(this, pid);
      var s := sets[pid];
      ghost var others, roles, st, dead := sets - {pid}, Roles(), Processes(), zombies;
      ghost var f, b, mem, was := m.Free(), m.Busy(), m.mem, s.pt.t.role.Keys;
      SpaceSteps.Exit(s, Fixed());
      zombies := zombies + {pid};
      Stepped(this, pid, s, true, others, roles, st, dead, was, f, b, mem);
      ZombieSeen(s, m.mem);
    }

    /** waitpid collects a zombie: its page table goes back too. */
    method Reap(pid: nat)
      requires Inv() && pid in sets && PM.Enabled(Processes(), PM.Reap(pid))
      modifies `sets, `zombies, m
      ensures Inv() && Processes() == PM.Step(old(Processes()), PM.Reap(pid))
      ensures old(Owned()) ==> Owned()
    {
      hide Sound, Machine.Valid, Machine.Free, Machine.Busy, TreeOk, Partition, Others, Aside, Local, Ready, Seen;
      hide Distinct, Untouched, ProcessOf, Key, Floor, Ceil, Inv, Roles, AllSound, Processes;
      Opened(this, pid);
      ApartFrom(this, pid);
      OthersOf(this, pid);
      var s := sets[pid];
      ghost var others, roles, st, dead := sets - {pid}, Roles(), Processes(), zombies;
      ghost var f, b, mem := m.Free(), m.Busy(), m.mem;
      ZombieFacts(this, pid);
      DropTables(s.pt);
      TablesReturned(f, b, mem, s.pt.t.role.Keys, m.Free(), m.Busy());
      FewerDistinct(sets, m, pid);
      sets := sets - {pid};
      zombies := zombies - {pid};
      Dropped(this, pid, roles, st, dead, f, b, mem);
    }

    /** One operation; None when the machine is out of frames, where the kernel panics. */
    method Do(op: PM.Op) returns (r: Option<int>)
      requires Inv() && Owned() && PM.Enabled(Processes(), op)
      modifies this, m, repr
      ensures r.None? ==> m.Free() == {}
      ensures r.Some? ==> Owned() && fresh(repr - old(repr))
      ensures r.Some? ==> Inv() && Processes() == PM.Step(old(Processes()), op)
      ensures r.Some? ==> r.value == PM.Answer(old(Processes()), op)
    {
      hide *;
      SameKeys(this);
      Named(Processes(), op);
      OwnedFacts(this);
      r := Some(0);
      match op
      case New(pid) =>
        var ok := New(pid);
        if !ok { return None; }
      case Insert(pid, s, e, perm) =>
        r := Insert(pid, s, e, perm);
        if r.Some? { FollowsMeans(this, old(Processes()), op, r.value); }
      case Remove(pid, s, e) =>
        var n := Remove(pid, s, e);
        r := Some(n);
      case Store(pid, va, word) =>
        Store(pid, va, word);
      case Load(pid, va) =>
        var word := Load(pid, va);
        r := Some(word);
      case Fork(pid, child) =>
        var ok := Fork(pid, child);
        if !ok { return None; }
      case Exit(pid) =>
        Exit(pid);
      case Reap(pid) =>
        Reap(pid);
    }

    /**
     Any run of operations by any processes over the shared frames gives each of them exactly
     the answers, and leaves it exactly the memory, that it would have on its own.
     */
    method Run(ops: seq<PM.Op>) returns (answers: seq<int>)
      requires Inv() && Owned() && PM.EnabledRun(Processes(), ops)
      modifies this, m, repr
      ensures answers <= PM.Answers(old(Processes()), ops)
      ensures |answers| < |ops| ==> m.Free() == {}
      ensures |answers| == |ops| ==> Inv() && Owned() && Processes() == PM.After(old(Processes()), ops)
      ensures |answers| == |ops| ==> Untouched(foreign, m.mem)
    {
      hide *;
      SameKeys(this);
      ghost var st := Processes();
      answers := [];
      var i := 0;
      assert ops[0..] == ops;
      while i < |ops|
        invariant 0 <= i <= |ops| && |answers| == i
        invariant Inv() && Owned() && fresh(repr - old(repr))
        invariant AllSound()
        invariant PM.EnabledRun(Processes(), ops[i..]) && PM.After(Processes(), ops[i..]) == PM.After(st, ops)
        invariant answers + PM.Answers(Processes(), ops[i..]) == PM.Answers(st, ops)
      {
        PM.Unfold(Processes(), ops, i);
        var r := Do(ops[i]);
        if r.None? {
          return;
        }
        SameKeys(this);
        answers := answers + [r.value];
        i := i + 1;
      }
      PM.Finished(Processes(), ops[i..]);
      SameKeys(this);
    }
  }

  lemma FollowsMeans(w: World, st: PM.Processes, op: PM.Op, r: int)
    requires w.Follows(st, op, r)
    ensures PM.Enabled(st, op) && w.Inv() && w.Processes() == PM.Step(st, op) && r == PM.Answer(st, op)
  {
  }

  lemma Named(st: PM.Processes, op: PM.Op)
    requires PM.Enabled(st, op)
    ensures !op.New? ==> op.pid in st
    ensures op.Insert? ==> PM.Asked(st, op.pid, op.startVa, op.endVa, op.perm)
    ensures op.Load? ==> PM.Step(st, op) == st
    ensures !op.Insert? && !op.Remove? && !op.Load? ==> PM.Answer(st, op) == 0
  {
  }

  lemma OwnedFacts(w: World)
    requires w.Owned()
    ensures w !in w.repr && w.m !in w.repr && forall pid :: pid in w.sets ==> w.sets[pid] in w.repr && w.sets[pid].pt in w.repr
  {
  }

  lemma SameKeys(w: World)
    requires w.Inv()
    ensures w.AllSound() && w.Processes().Keys == w.sets.Keys && Untouched(w.foreign, w.m.mem)
  {
  }

  /** When the last process is gone, every frame that was free before the first is free again. */
  lemma NothingLeaks(w: World)
    requires w.Inv() && w.Processes() == map[]
    ensures w.m.Busy() == w.foreign.Keys && w.m.Free() == Span(w.m.base, w.m.end) - w.foreign.Keys
  {
    SameKeys(w);
    hide World.Processes, Machine.Valid, Machine.Free, Machine.Busy;
    w.m.FreeAndBusy();
    assert w.Roles() == map[];
  }
}
