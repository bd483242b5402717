/** Processes on one processor: the system calls that create, schedule, end and collect them. */
module Kernels {
  import opened Basics
  import opened Strides
  import opened Tasks

  const USIZE_MAX := 0xffff_ffff_ffff_ffff
  // So many turns keep every stride below USIZE_MAX.
  const STEP_LIMIT := 400_000_000_000

  class PidAllocator {
    var current: nat
    var recycled: seq<nat>

    ghost predicate Valid()
      reads this
    {
      && (forall i :: 0 <= i < |recycled| ==> recycled[i] < current)
      && (forall i, j :: 0 <= i < j < |recycled| ==> recycled[i] != recycled[j])
    }

    // The pids handed out and not returned.
    ghost function Used(): set<nat>
      reads this
    {
      Span(0, current) - (set p | p in recycled)
    }

    constructor ()
      ensures Valid() && Used() == {}
    {
      current := 0;
      recycled := [];
    }

    /** alloc: the pid returned last, or a new one. */
    method Alloc() returns (pid: nat)
      requires Valid()
      modifies this
      ensures Valid() && pid !in old(Used()) && Used() == old(Used()) + {pid}
    {
      hide Span;
      if |recycled| > 0 {
        var n := |recycled| - 1;
        pid := recycled[n];
        recycled := recycled[..n];
        assert old(recycled) == recycled + [pid];
      } else {
        current := current + 1;
        pid := current - 1;
      }
    }

    /** dealloc: both its assertions hold exactly for a pid in use. */
    method Dealloc(pid: nat)
      requires Valid() && pid in Used()
      modifies this
      ensures Valid() && Used() == old(Used()) - {pid}
    {
      assert pid < current && pid !in recycled;
      recycled := recycled + [pid];
    }
  }

  // What the system calls act on: every task, the queue, and the task that runs.
  datatype System = System(tasks: Table, ready: seq<Task>, current: Task)

  datatype Call = Fork | Spawn(found: bool) | Yield | Exit(code: int) | WaitPid(pid: int) | SetPriority(prio: int)

  ghost predicate NewTask(call: Call) { call.Fork? || (call.Spawn? && call.found) }

  // s is what a fetch makes of a queue from which the running task is gone.
  ghost predicate FetchedFrom(tasks: Table, ready: seq<Task>, s: System) {
    && ready != [] && (forall t :: t in ready ==> t in tasks && tasks[t].priority >= 2)
    && var i := FirstMin(Entries(tasks, ready));
       s == System(Dispatch(tasks, ready[i]), ready[..i] + ready[i + 1..], ready[i])
  }

  // A child with a pid of its own joined the queue.
  ghost predicate Bore(s: System, s': System, pid: int)
    requires s.current in s.tasks
  {
    exists c :: c in s'.tasks && c !in s.tasks && 0 <= pid && (forall t :: t in s.tasks ==> s.tasks[t].pid != pid)
             && s' == System(Born(s.tasks, s.current, c, pid), s.ready + [c], s.current)
  }

  ghost predicate Waited(s: System, pid: int, s': System, r: int, code: int)
    requires s.current in s.tasks
  {
    var kids := s.tasks[s.current].children;
    && (forall c :: c in kids ==> c in s.tasks)
    && var i := FirstZombie(s.tasks, kids, pid, 0);
       if i < |kids| then
         && r == s.tasks[kids[i]].pid && code == s.tasks[kids[i]].exitCode
         && s' == s.(tasks := Reaped(s.tasks, s.current, i)) && Unreferenced(s'.tasks, s'.ready, s'.current, kids[i])
       else s' == s && r == if AnyWanted(s.tasks, kids, pid) then -2 else -1
  }

  // What a call does to the whole state, and what it answers.
  ghost predicate Next(s: System, init: Task, call: Call, s': System, r: int, code: int) {
    && s.current in s.tasks
    && match call
       case Fork => Bore(s, s', r)
       case Spawn(found) => if found then Bore(s, s', r) else s' == s && r == -1
       case Yield => FetchedFrom(Suspend(s.tasks, s.current), s.ready + [s.current], s') && r == 0
       case Exit(exitCode) => s.current != init && FetchedFrom(Gone(s.tasks, s.current, init, exitCode), s.ready, s')
       case WaitPid(pid) => Waited(s, pid, s', r, code)
       case SetPriority(prio) =>
         if prio >= 2 then s' == s.(tasks := s.tasks[s.current := s.tasks[s.current].(priority := prio)]) && r == prio
         else s' == s && r == -1
  }

  // Tree and queue are as they should be, and no two tasks share a pid.
  ghost predicate Intact(s: System, init: Task) {
    Queued(s.tasks, s.ready, s.current) && Family(s.tasks, init) && PidsUnique(s.tasks)
  }

  class Kernel {
    const pids: PidAllocator
    const initproc: Task
    var ready: seq<Task>
    var current: Task?
    // Every task that exists, as its fields are now; its place in the tree; the number of fetches so far.
    ghost var tasks: Table
    ghost var rank: map<Task, nat>
    ghost var steps: nat

    // Between the instructions of a scheduling step no task need be running.
    ghost predicate Sane()
      reads this, pids, tasks.Keys
    {
      && Mirror(tasks) && pids.Valid()
      && Tree(tasks, initproc, rank, pids.Used())
      && Queued(tasks, ready, current) && Paced(tasks, steps)
    }

    ghost predicate Valid()
      reads this, pids, tasks.Keys
    {
      Sane() && current != null
    }

    // The queue as the next fetch will see it if the running task yields.
    ghost function Queue(): seq<Entry>
      requires current != null && current in tasks && forall t :: t in ready ==> t in tasks
      reads this
    {
      Entries(tasks, ready + [current])
    }

    ghost function State(): System
      requires current != null
      reads this
    {
      System(tasks, ready, current)
    }

    // No two strides of tasks that run or wait are further apart than the bound.
    ghost predicate Balanced()
      reads this
    {
      && current != null && current in tasks && (forall t :: t in ready ==> t in tasks)
      && Spread(Queue())
    }

    /** The machine after add_initproc: one task, ready, and none running. */
    constructor ()
      ensures Sane() && current == null && ready == [initproc] && tasks.Keys == {initproc} && steps == 0
      ensures EntryOf(tasks[initproc]) == Entry(initproc.pid, 0, 16)
      ensures fresh(pids) && fresh(initproc)
    {
      var allocator := new PidAllocator();
      var pid := allocator.Alloc();
      var init := new Task(pid, null);
      pids := allocator;
      initproc := init;
      ready := [init];
      current := null;
      tasks := map[init := InfoOf(init)];
      rank := map[init := 0];
      steps := 0;
      new;
      hide Tree, Queued, Paced;
      FirstTask(tasks, init, pid);
    }

    /** The scan of TaskManager::fetch. */
    method Select() returns (res: nat)
      requires Sane() && current == null && steps < STEP_LIMIT
      ensures res < |ready| && ready != [] && res == FirstMin(Entries(tasks, ready))
    {
      hide Family, Queued, Ranked, PidsOk, FirstMin;
      Members(tasks, ready, current);
      ghost var q := Entries(tasks, ready);
      SomeoneReady(tasks, ready, initproc);
      var minStride := USIZE_MAX;
      res := 0;
      var idx := 0;
      while idx < |ready|
        invariant 0 <= idx <= |ready|
        invariant idx == 0 ==> minStride == USIZE_MAX && res == 0
        invariant idx > 0 ==> res < idx && res == FirstMin(q[..idx]) && minStride == ready[res].stride
      {
        assert tasks[ready[idx]].stride < USIZE_MAX;
        FirstMinNext(q, idx);
        if ready[idx].stride < minStride {
          res := idx;
          minStride := ready[idx].stride;
        }
        idx := idx + 1;
      }
      assert q[..idx] == q;
    }

    /** fetch, and the step of run_tasks that makes the task fetched the running one. */
    method Fetch()
      requires Sane() && current == null && steps < STEP_LIMIT
      modifies this, tasks.Keys
      ensures Valid() && tasks.Keys == old(tasks).Keys && steps == old(steps) + 1
      ensures FetchedFrom(old(tasks), old(ready), State())
      ensures Runnable(Entries(old(tasks), old(ready)))
      ensures Queue() == Round(Entries(old(tasks), old(ready)))
    {
      hide Mirror, Tree, Queued, Paced, NoRepeat, FirstMin, Entries, Round, Runnable, Pass, PidAllocator.Used, PidAllocator.Valid;
      var res := Select();
      var t := ready[res];
      ReadyFacts(tasks, ready, steps);
      DispatchIsRound(tasks, ready);
      DispatchTree(tasks, t, initproc, rank, pids.Used());
      DispatchQueued(tasks, ready, res);
      DispatchPaced(tasks, steps, t);
      MirrorApart(tasks, t);
      t.Start();
      MirrorAgain(tasks, Dispatch(tasks, t), t);
      ready := ready[..res] + ready[res + 1..];
      current := t;
      steps := steps + 1;
      tasks := Dispatch(tasks, t);
    }

    /** suspend_current_and_run_next: one round of the scheduler. */
    method Yield()
      requires Valid() && steps < STEP_LIMIT
      modifies this, tasks.Keys
      ensures Valid() && tasks.Keys == old(tasks).Keys && steps == old(steps) + 1
      ensures FetchedFrom(Suspend(old(tasks), old(current)), old(ready) + [old(current)], State())
      ensures Runnable(old(Queue())) && Queue() == Round(old(Queue()))
    {
      hide Mirror, Tree, Queued, Paced, Round, Runnable, PidAllocator.Used, PidAllocator.Valid;
      var t := current;
      ghost var before := tasks;
      Members(tasks, ready, current);
      SuspendKeeps(tasks, ready, t, initproc, rank, pids.Used(), steps);
      MirrorApart(tasks, t);
      current := null;
      t.status := Ready;
      MirrorAgain(tasks, Suspend(tasks, t), t);
      ready := ready + [t];
      tasks := Suspend(tasks, t);
      assert Entries(tasks, ready) == Entries(before, ready);
      Fetch();
    }

    /** fork and spawn: a child of the running task, in the ready queue. */
    method NewChild() returns (child: Task)
      requires Valid()
      modifies this, pids, tasks.Keys
      ensures Valid() && fresh(child) && tasks.Keys == old(tasks).Keys + {child} && steps == old(steps)
      ensures current in old(tasks) && forall t :: t in old(tasks) ==> old(tasks)[t].pid != child.pid
      ensures State() == System(Born(old(tasks), old(current), child, child.pid), old(ready) + [child], old(current))
      ensures Queue() == old(Queue())[..|old(ready)|] + [Entry(child.pid, 0, 16)] + old(Queue())[|old(ready)|..]
    {
      hide Mirror, Tree, Queued, Paced, Entries, PidAllocator.Used, PidAllocator.Valid;
      var cur := current;
      ghost var before, used := tasks, pids.Used();
      Members(tasks, ready, current);
      var pid := pids.Alloc();
      child := new Task(pid, cur);
      BornKeeps(tasks, ready, cur, child, pid, initproc, rank, used, steps);
      MirrorApart(tasks, cur);
      cur.children := cur.children + [child];
      ghost var grown := tasks[cur := InfoOf(cur)];
      MirrorAgain(tasks, grown, cur);
      MirrorApart(grown, child);
      MirrorAgain(grown, Born(tasks, cur, child, pid), child);
      rank := rank[child := rank[cur] + 1];
      ready := ready + [child];
      tasks := Born(tasks, cur, child, pid);
      BornEntries(before, old(ready), cur, child, pid);
    }

    /** sys_fork. */
    method Fork() returns (pid: int)
      requires Valid()
      modifies this, pids, tasks.Keys
      ensures Valid() && steps == old(steps)
      ensures current in old(tasks) && Bore(old(State()), State(), pid)
      ensures forall t :: t in tasks ==> t in old(tasks) || fresh(t)
      ensures Queue() == old(Queue())[..|old(ready)|] + [Entry(pid, 0, 16)] + old(Queue())[|old(ready)|..]
    {
      hide Sane, Born, Entries;
      var child := NewChild();
      pid := child.pid;
      assert child in tasks;
    }

    /** sys_set_priority. */
    method SetPriority(prio: int) returns (r: int)
      requires Valid()
      modifies `tasks, tasks.Keys
      ensures Valid() && tasks.Keys == old(tasks).Keys && r == if prio >= 2 then prio else -1
      ensures current in old(tasks)
      ensures tasks == if prio >= 2 then old(tasks)[current := old(tasks)[current].(priority := prio)] else old(tasks)
      ensures Queue() == if prio >= 2 then old(Queue())[|ready| := old(Queue())[|ready|].(priority := prio)] else old(Queue())
    {
      hide Mirror, Tree, Queued, Paced, Entries, PidAllocator.Used, PidAllocator.Valid;
      Members(tasks, ready, current);
      if 2 <= prio {
        PriorityKeeps(tasks, ready, current, prio, initproc, rank, pids.Used(), steps);
        PriorityEntries(tasks, ready, current, prio);
        MirrorApart(tasks, current);
        current.priority := prio;
        MirrorAgain(tasks, tasks[current := tasks[current].(priority := prio)], current);
        tasks := tasks[current := tasks[current].(priority := prio)];
        r := prio;
      } else {
        r := -1;
      }
    }

    /** The loop of exit that gives the children of t to initproc. */
    method Reparent(t: Task, ghost before: Table, code: int)
      requires t in before && initproc in before && t != initproc && Mirror(tasks)
      requires tasks == Left(before, t, initproc, [], code)
      requires forall c :: c in before[t].children ==> c in before && c != initproc && c != t
      modifies `tasks, tasks.Keys
      ensures Mirror(tasks) && tasks == Left(before, t, initproc, before[t].children, code)
    {
      hide Mirror, Left;
      LeftFacts(before, t, initproc, [], code);
      MirrorApart(tasks, t);
      var kids, i := t.children, 0;
      while i < |kids|
        invariant 0 <= i <= |kids|
        invariant Mirror(tasks) && tasks == Left(before, t, initproc, kids[..i], code) && tasks.Keys == before.Keys
      {
        var c := kids[i];
        LeftNext(before, t, initproc, kids, i, code);
        MirrorApart(tasks, c);
        c.parent := initproc;
        MirrorAgain(tasks, tasks[c := InfoOf(c)], c);
        tasks := tasks[c := InfoOf(c)];
        MirrorApart(tasks, initproc);
        initproc.children := initproc.children + [c];
        MirrorAgain(tasks, tasks[initproc := InfoOf(initproc)], initproc);
        tasks := tasks[initproc := InfoOf(initproc)];
        i := i + 1;
      }
      assert kids[..i] == kids;
    }

    // The part of exit before it schedules.
    method Retire(code: int)
      requires Valid() && current != initproc
      modifies `current, `tasks, tasks.Keys
      ensures Sane() && current == null && tasks == Gone(old(tasks), old(current), initproc, code)
    {
      hide Mirror, Tree, Queued, Paced, Left, Gone, PidAllocator.Used, PidAllocator.Valid;
      var t := current;
      ghost var before := tasks;
      Members(tasks, ready, current);
      ChildFacts(tasks, initproc, rank, pids.Used(), t);
      GoneKeeps(tasks, ready, initproc, rank, pids.Used(), steps, t, code);
      NothingLeftYet(tasks, t, initproc, code);
      MirrorApart(tasks, t);
      current := null;
      t.status := Zombie;
      t.exitCode := code;
      MirrorAgain(tasks, Left(before, t, initproc, [], code), t);
      tasks := Left(before, t, initproc, [], code);
      Reparent(t, before, code);
      LeftFacts(before, t, initproc, before[t].children, code);
      MirrorApart(tasks, t);
      t.children := [];
      GoneIs(before, t, initproc, code);
      MirrorAgain(tasks, Gone(before, t, initproc, code), t);
      tasks := Gone(before, t, initproc, code);
    }

    /** exit_current_and_run_next: initproc itself never exits. */
    method Exit(code: int)
      requires Valid() && current != initproc && steps < STEP_LIMIT
      modifies this, tasks.Keys
      ensures Valid() && tasks.Keys == old(tasks).Keys && steps == old(steps) + 1
      ensures old(current) in old(tasks)
      ensures FetchedFrom(Gone(old(tasks), old(current), initproc, code), old(ready), State())
      ensures Runnable(old(Queue())[..|old(ready)|]) && Queue() == Round(old(Queue())[..|old(ready)|])
    {
      hide Mirror, Tree, Queued, Paced, Round, Runnable, Entries, Gone, PidAllocator.Used, PidAllocator.Valid;
      Members(tasks, ready, current);
      GoneEntries(tasks, ready, current, initproc, code);
      Retire(code);
      GoneFacts(old(tasks), old(current), initproc, code);
      Fetch();
    }

    /** The search of sys_waitpid through the children of the running task. */
    method FindChild(pid: int) returns (any: bool, i: nat)
      requires Valid() && current in tasks && forall c :: c in tasks[current].children ==> c in tasks
      ensures any <==> AnyWanted(tasks, tasks[current].children, pid)
      ensures i == FirstZombie(tasks, tasks[current].children, pid, 0)
    {
      hide Tree, Queued, Paced, PidAllocator.Used, PidAllocator.Valid;
      ghost var kids := tasks[current].children;
      any, i := false, 0;
      while i < |current.children|
        invariant 0 <= i <= |kids| && kids == current.children
        invariant any <==> AnyWanted(tasks, kids[..i], pid)
      {
        assert InfoOf(kids[i]) == tasks[kids[i]];
        assert kids[..i + 1] == kids[..i] + [kids[i]];
        if Wanted(pid, current.children[i].pid) {
          any := true;
        }
        i := i + 1;
      }
      assert kids[..i] == kids;
      i := 0;
      while i < |current.children| && !(current.children[i].status == Zombie && Wanted(pid, current.children[i].pid))
        invariant 0 <= i <= |kids| && kids == current.children
        invariant FirstZombie(tasks, kids, pid, 0) == FirstZombie(tasks, kids, pid, i)
      {
        assert InfoOf(kids[i]) == tasks[kids[i]];
        i := i + 1;
      }
      assert i < |kids| ==> InfoOf(kids[i]) == tasks[kids[i]];
    }

    /** sys_waitpid: -1 without such a child, -2 while none of them has exited, else one zombie is collected. */
    method WaitPid(pid: int) returns (r: int, code: int)
      requires Valid()
      modifies `tasks, `rank, pids, tasks.Keys
      ensures Valid() && Queue() == old(Queue()) && tasks.Keys <= old(tasks).Keys
      ensures current in old(tasks) && forall c :: c in old(tasks)[current].children ==> c in old(tasks)
      ensures var kids := old(tasks)[current].children;
              var i := FirstZombie(old(tasks), kids, pid, 0);
              && (!AnyWanted(old(tasks), kids, pid) ==> r == -1 && tasks == old(tasks))
              && (AnyWanted(old(tasks), kids, pid) && i == |kids| ==> r == -2 && tasks == old(tasks))
              && (i < |kids| ==>
                    && r == old(tasks)[kids[i]].pid && code == old(tasks)[kids[i]].exitCode
                    && tasks == Reaped(old(tasks), current, i) && Unreferenced(tasks, ready, current, kids[i]))
    {
      hide Mirror, Tree, Queued, Paced, Entries, Reaped, Unreferenced, AnyWanted, FirstZombie;
      hide PidAllocator.Used, PidAllocator.Valid;
      Members(tasks, ready, current);
      ChildFacts(tasks, initproc, rank, pids.Used(), current);
      var any, i := FindChild(pid);
      code := 0;
      MirrorApart(tasks, current);
      WantedFacts(tasks, tasks[current].children, pid);
      if !any {
        r := -1;
      } else if i < |current.children| {
        Reapable(tasks, initproc, rank, pids.Used(), current, i);
        r, code := Collect(i);
      } else {
        r := -2;
      }
    }

    // children.remove(idx), and the drop of the zombie with its pid.
    method Collect(i: nat) returns (r: int, code: int)
      requires Valid() && current in tasks && ReapableAt(tasks, initproc, current, i)
      modifies `tasks, `rank, pids, tasks.Keys
      ensures Valid() && Queue() == old(Queue()) && tasks == Reaped(old(tasks), current, i)
      ensures tasks.Keys <= old(tasks).Keys
      ensures var c := old(tasks)[current].children[i];
              && r == old(tasks)[c].pid && code == old(tasks)[c].exitCode && Unreferenced(tasks, ready, current, c)
    {
      hide Mirror, Tree, Queued, Paced, Entries, Reaped, Unreferenced, Family, PidAllocator.Used, PidAllocator.Valid;
      ghost var before := tasks;
      Members(tasks, ready, current);
      ReapedKeeps(tasks, ready, initproc, rank, pids.Used(), steps, current, i);
      ReapedEntries(tasks, ready, current, i);
      MirrorApart(tasks, current);
      var child := current.children[i];
      MirrorApart(tasks, child);
      current.children := current.children[..i] + current.children[i + 1..];
      MirrorAgain(tasks, tasks[current := InfoOf(current)], current);
      ReapedIs(before, current, i);
      tasks := tasks[current := InfoOf(current)] - {child};
      MirrorLess(before[current := InfoOf(current)], child);
      rank := rank - {child};
      r, code := child.pid, child.exitCode;
      pids.Dealloc(child.pid);
    }

    /**
     While all processes merely yield, a waiting process that no one blocks runs after at most
     as many rounds as its wait.
     */
    method YieldUntil(t: Task, ghost x: nat) returns (rounds: nat)
      requires Valid() && x < |ready| && ready[x] == t && t in tasks
      requires !Blocked(Queue(), tasks[t].stride) && steps + Wait(Queue(), x) < STEP_LIMIT
      modifies this, tasks.Keys
      ensures Valid() && current == t && rounds <= Wait(old(Queue()), x) + 1
    {
      hide Sane, Round, Entries, Runnable, Blocked, Wait, Fetched;
      QueueFacts(this);
      ghost var q := Queue();
      EntryAt(this, x);
      ghost var k := Served(q, x);
      rounds := 0;
      NoRounds(q);
      while current != t
        invariant 0 <= rounds <= k + 1 && steps == old(steps) + rounds
        invariant Valid() && tasks.Keys == old(tasks).Keys && current in tasks && (forall x :: x in ready ==> x in tasks)
        invariant Queue() == Rounds(q, rounds)
        invariant rounds == k + 1 ==> current == t
        decreases k + 1 - rounds
      {
        QueueFacts(this);
        Yield();
        LastIsFetched(Rounds(q, rounds));
        CurrentIs(this, t);
        RoundsNext(q, rounds);
        rounds := rounds + 1;
      }
    }

    /** One system call of the running process; not ok when initproc exits, where the kernel panics. */
    method Do(call: Call) returns (ok: bool, r: int, code: int)
      requires Valid() && steps < STEP_LIMIT
      modifies this, pids, tasks.Keys
      ensures !ok <==> call.Exit? && old(current) == initproc
      ensures ok ==> Valid() && steps <= old(steps) + 1
      ensures ok ==> Next(old(State()), initproc, call, State(), r, code)
      ensures ok ==> forall t :: t in tasks ==> t in old(tasks) || fresh(t)
      ensures ok && old(Balanced()) && !NewTask(call) ==> Balanced()
      ensures ok && old(Balanced()) && NewTask(call) ==>
                (Balanced() <==> forall i :: 0 <= i < |old(Queue())| ==> old(Queue())[i].stride <= HALF)
    {
      hide Sane, Round, Entries, Spread, Runnable, Reaped, Unreferenced, AnyWanted, FirstZombie;
      ok, r, code := true, 0, 0;
      QueueFacts(this);
      ghost var q, n := Queue(), |ready|;
      if Spread(q) {
        SpreadPrefix(q, n);
      }
      match call {
      case Fork =>
        r := Fork();
        if Spread(q) { SpreadWithNewAt(q, n, Entry(r, 0, 16)); }
      case Spawn(found) =>
        if found {
          r := Fork();
          if Spread(q) { SpreadWithNewAt(q, n, Entry(r, 0, 16)); }
        } else {
          r := -1;
        }
      case Yield =>
        Yield();
        if Spread(q) { SpreadKept(q); }
      case Exit(exitCode) =>
        if current == initproc {
          return false, 0, 0;
        }
        Exit(exitCode);
        if Spread(q) { SpreadKept(q[..n]); }
      case WaitPid(pid) =>
        r, code := WaitPid(pid);
      case SetPriority(prio) =>
        r := SetPriority(prio);
        if Spread(q) && prio >= 2 { SpreadOfPriority(q, n, prio); }
      }
      QueueFacts(this);
    }

    /** Every run of system calls, by whichever processes happen to run, keeps the process tree and the queue intact. */
    method Run(calls: seq<Call>) returns (done: nat, results: seq<(int, int)>, ghost trace: seq<System>)
      requires Valid() && steps + |calls| <= STEP_LIMIT
      modifies this, pids, tasks.Keys
      ensures done <= |calls| && (done < |calls| ==> calls[done].Exit?)
      ensures |results| == done && |trace| == done + 1 && trace[0] == old(State())
      ensures forall i :: 0 <= i < done ==> Next(trace[i], initproc, calls[i], trace[i + 1], results[i].0, results[i].1)
      ensures forall i :: 0 <= i <= done ==> Intact(trace[i], initproc)
      ensures done == |calls| ==> Valid() && trace[done] == State()
      ensures done == |calls| && old(Balanced()) && (forall i :: 0 <= i < |calls| ==> !NewTask(calls[i])) ==> Balanced()
    {
      hide Sane, Balanced, Next, Intact;
      done, results, trace := 0, [], [State()];
      IntactNow(this);
      while done < |calls|
        invariant 0 <= done <= |calls| && Valid() && steps <= old(steps) + done
        invariant |results| == done && |trace| == done + 1 && trace[0] == old(State()) && trace[done] == State()
        invariant forall i :: 0 <= i < done ==> Next(trace[i], initproc, calls[i], trace[i + 1], results[i].0, results[i].1)
        invariant forall t :: t in tasks ==> t in old(tasks) || fresh(t)
        invariant forall i :: 0 <= i <= done ==> Intact(trace[i], initproc)
        invariant old(Balanced()) && (forall i :: 0 <= i < done ==> !NewTask(calls[i])) ==> Balanced()
      {
        var ok, r, code := Do(calls[done]);
        if !ok {
          return;
        }
        IntactNow(this);
        results, trace := results + [(r, code)], trace + [State()];
        done := done + 1;
      }
    }
  }

  /** The machine running its first process. */
  method Boot() returns (k: Kernel)
    ensures fresh(k) && fresh(k.pids) && k.Valid() && k.current == k.initproc && k.Balanced() && k.steps == 1
    ensures k.ready == [] && k.tasks.Keys == {k.initproc} && k.Queue() == [Entry(k.initproc.pid, 5555555, 16)]
    ensures forall t :: t in k.tasks ==> fresh(t)
  {
    hide Kernel.Sane, Round, Runnable, Spread;
    k := new Kernel();
    RoundOfOne(Entry(k.initproc.pid, 0, 16));
    assert Entries(k.tasks, k.ready) == [Entry(k.initproc.pid, 0, 16)];
    k.Fetch();
    QueueFacts(k);
    SpreadOne(k.Queue());
  }

  lemma SpreadOne(q: seq<Entry>)
    requires |q| == 1
    ensures Spread(q)
  {
  }

  lemma IntactNow(k: Kernel)
    requires k.Valid()
    ensures Intact(k.State(), k.initproc)
  {
  }

  lemma QueueFacts(k: Kernel)
    requires k.Valid()
    ensures k.current in k.tasks && (forall t :: t in k.ready ==> t in k.tasks) && |k.Queue()| == |k.ready| + 1
    ensures Runnable(k.Queue())
  {
    hide Tree;
    Members(k.tasks, k.ready, k.current);
    assert forall t :: t in k.ready + [k.current] ==> t in k.tasks;
  }

  lemma EntryAt(k: Kernel, x: nat)
    requires k.Valid() && x < |k.ready|
    ensures k.ready[x] in k.tasks && k.current in k.tasks && (forall t :: t in k.ready ==> t in k.tasks)
    ensures k.Queue()[x].pid == k.ready[x].pid && k.Queue()[x].stride == k.tasks[k.ready[x]].stride
  {
    hide Tree, Paced;
    Members(k.tasks, k.ready, k.current);
    assert InfoOf(k.ready[x]) == k.tasks[k.ready[x]];
  }

  // The last entry of the queue is the running task's.
  lemma CurrentIs(k: Kernel, t: Task)
    requires k.Valid() && t in k.tasks
    ensures k.current in k.tasks && (forall t :: t in k.ready ==> t in k.tasks)
    ensures k.Queue()[|k.ready|].pid == t.pid <==> k.current == t
  {
    hide Family, Ranked, Paced;
    Members(k.tasks, k.ready, k.current);
    assert InfoOf(k.current) == k.tasks[k.current] && InfoOf(t) == k.tasks[t];
  }

  lemma LastIsFetched(q: seq<Entry>)
    requires Runnable(q)
    ensures Round(q)[|q| - 1].pid == Fetched(q)
  {
  }

  lemma RoundsNext(q: seq<Entry>, k: nat)
    requires Runnable(q)
    ensures Rounds(q, k + 1) == Round(Rounds(q, k))
  {
  }

  lemma SpreadOfPriority(q: seq<Entry>, n: nat, prio: nat)
    requires Spread(q) && n < |q|
    ensures Spread(q[n := q[n].(priority := prio)])
  {
  }

  lemma FirstTask(tasks: Table, init: Task, pid: nat)
    requires tasks == map[init := Info(pid, Ready, 16, 0, null, [], 0)]
    ensures Tree(tasks, init, map[init := 0], {pid}) && Queued(tasks, [init], null) && Paced(tasks, 0)
  {
    assert tasks[init].pid == pid;
  }

  lemma FirstMinNext(q: seq<Entry>, n: nat)
    requires n < |q|
    ensures n == 0 ==> FirstMin(q[..1]) == 0
    ensures n > 0 ==> var i := FirstMin(q[..n]);
              FirstMin(q[..n + 1]) == if q[n].stride < q[i].stride then n else i
  {
    assert q[..n + 1][..n] == q[..n];
  }

  lemma Members(tasks: Table, ready: seq<Task>, current: Task?)
    requires Queued(tasks, ready, current)
    ensures current != null ==> current in tasks && tasks[current].status == Running && current !in ready
    ensures forall t :: t in ready ==> t in tasks
  {
  }

  lemma ReadyFacts(tasks: Table, ready: seq<Task>, steps: nat)
    requires Queued(tasks, ready, null) && Paced(tasks, steps)
    ensures NoRepeat(ready)
    ensures forall t :: t in ready ==> t in tasks && tasks[t].priority >= 2 && tasks[t].status == Ready
  {
  }

  lemma BornKeeps(tasks: Table, ready: seq<Task>, cur: Task, c: Task, pid: nat,
                  init: Task, rank: map<Task, nat>, used: set<nat>, steps: nat)
    requires cur in tasks && c !in tasks && pid !in used
    requires Tree(tasks, init, rank, used) && Queued(tasks, ready, cur) && Paced(tasks, steps)
    ensures cur in rank && Tree(Born(tasks, cur, c, pid), init, rank[c := rank[cur] + 1], used + {pid})
    ensures Queued(Born(tasks, cur, c, pid), ready + [c], cur) && Paced(Born(tasks, cur, c, pid), steps)
    ensures forall t :: t in tasks ==> tasks[t].pid != pid
  {
    hide Family, Ranked, PidsOk, Queued;
    RunningFacts(tasks, ready, cur, init, rank);
    BornFamily(tasks, init, cur, c, pid);
    BornRanked(tasks, init, rank, cur, c, pid);
    BornPids(tasks, used, cur, c, pid);
    PidIsNew(tasks, used, pid);
    BornQueued(tasks, ready, cur, c, pid);
  }

  lemma PidIsNew(tasks: Table, used: set<nat>, pid: nat)
    requires PidsOk(tasks, used) && pid !in used
    ensures forall t :: t in tasks ==> tasks[t].pid != pid
  {
  }

  lemma RunningFacts(tasks: Table, ready: seq<Task>, cur: Task, init: Task, rank: map<Task, nat>)
    requires Queued(tasks, ready, cur) && Ranked(tasks, init, rank) && cur in tasks
    ensures cur in rank && tasks[cur].status == Running && cur !in ready
  {
  }

  lemma BornEntries(tasks: Table, ready: seq<Task>, cur: Task, c: Task, pid: nat)
    requires cur in tasks && c !in tasks && forall t :: t in ready ==> t in tasks
    ensures var q := Entries(tasks, ready + [cur]);
            Entries(Born(tasks, cur, c, pid), ready + [c] + [cur]) == q[..|ready|] + [Entry(pid, 0, 16)] + q[|ready|..]
  {
  }

  lemma PriorityEntries(tasks: Table, ready: seq<Task>, t: Task, prio: nat)
    requires t in tasks && Queued(tasks, ready, t)
    ensures var q := Entries(tasks, ready + [t]);
            Entries(tasks[t := tasks[t].(priority := prio)], ready + [t]) == q[|ready| := q[|ready|].(priority := prio)]
  {
  }

  lemma PriorityKeeps(tasks: Table, ready: seq<Task>, t: Task, prio: nat,
                      init: Task, rank: map<Task, nat>, used: set<nat>, steps: nat)
    requires t in tasks && prio >= 2
    requires Tree(tasks, init, rank, used) && Queued(tasks, ready, t) && Paced(tasks, steps)
    ensures var tasks' := tasks[t := tasks[t].(priority := prio)];
            Tree(tasks', init, rank, used) && Queued(tasks', ready, t) && Paced(tasks', steps)
  {
    hide Tree;
    TouchedKeeps(tasks, tasks[t := tasks[t].(priority := prio)], t, init, rank, used);
  }

  lemma LeftFacts(tasks: Table, cur: Task, init: Task, kids: seq<Task>, code: int)
    ensures Left(tasks, cur, init, kids, code).Keys == tasks.Keys
    ensures cur in tasks ==> Left(tasks, cur, init, kids, code)[cur] == tasks[cur].(status := Zombie, exitCode := code)
  {
  }

  lemma GoneIs(tasks: Table, cur: Task, init: Task, code: int)
    requires cur in tasks
    ensures var r := Left(tasks, cur, init, tasks[cur].children, code);
            Gone(tasks, cur, init, code) == r[cur := tasks[cur].(status := Zombie, exitCode := code, children := [])]
  {
  }

  lemma GoneFacts(tasks: Table, cur: Task, init: Task, code: int)
    requires cur in tasks
    ensures Gone(tasks, cur, init, code).Keys == tasks.Keys
    ensures Gone(tasks, cur, init, code)[cur].status == Zombie && Gone(tasks, cur, init, code)[cur].exitCode == code
  {
  }

  lemma ChildFacts(tasks: Table, init: Task, rank: map<Task, nat>, used: set<nat>, t: Task)
    requires Tree(tasks, init, rank, used) && t in tasks
    ensures init in tasks && forall c :: c in tasks[t].children ==> c in tasks && c != init && c != t
  {
    NotOwnChild(tasks, init, rank, t);
  }

  lemma GoneEntries(tasks: Table, ready: seq<Task>, cur: Task, init: Task, code: int)
    requires cur in tasks && forall t :: t in ready ==> t in tasks
    ensures forall t :: t in ready ==> t in Gone(tasks, cur, init, code)
    ensures Entries(Gone(tasks, cur, init, code), ready) == Entries(tasks, ready + [cur])[..|ready|]
  {
  }

  // ----- what waitpid looks for

  predicate Wanted(pid: int, p: nat) { pid == -1 || pid == p }

  ghost predicate AnyWanted(tasks: Table, kids: seq<Task>, pid: int)
    requires forall c :: c in kids ==> c in tasks
  {
    exists c :: c in kids && Wanted(pid, tasks[c].pid)
  }

  // The first child at or after i that is wanted and has exited.
  ghost function FirstZombie(tasks: Table, kids: seq<Task>, pid: int, i: nat): (r: nat)
    requires i <= |kids| && forall c :: c in kids ==> c in tasks
    ensures i <= r <= |kids|
    ensures r < |kids| ==> tasks[kids[r]].status == Zombie && Wanted(pid, tasks[kids[r]].pid)
    ensures forall j :: i <= j < r ==> !(tasks[kids[j]].status == Zombie && Wanted(pid, tasks[kids[j]].pid))
    decreases |kids| - i
  {
    if i == |kids| || (tasks[kids[i]].status == Zombie && Wanted(pid, tasks[kids[i]].pid)) then i
    else FirstZombie(tasks, kids, pid, i + 1)
  }

  lemma WantedFacts(tasks: Table, kids: seq<Task>, pid: int)
    requires forall c :: c in kids ==> c in tasks
    ensures FirstZombie(tasks, kids, pid, 0) < |kids| ==> AnyWanted(tasks, kids, pid)
  {
    var i := FirstZombie(tasks, kids, pid, 0);
    assert i < |kids| ==> kids[i] in kids;
  }

  lemma Reapable(tasks: Table, init: Task, rank: map<Task, nat>, used: set<nat>, cur: Task, i: nat)
    requires Tree(tasks, init, rank, used) && cur in tasks && tasks[cur].status == Running && i < |tasks[cur].children|
    requires tasks[cur].children[i] in tasks && tasks[tasks[cur].children[i]].status == Zombie
    ensures ReapableAt(tasks, init, cur, i)
  {
  }

  lemma ReapedEntries(tasks: Table, ready: seq<Task>, cur: Task, i: nat)
    requires Queued(tasks, ready, cur) && cur in tasks && i < |tasks[cur].children|
    requires tasks[cur].children[i] in tasks && tasks[tasks[cur].children[i]].status == Zombie
    ensures forall t :: t in ready + [cur] ==> t in tasks && t in Reaped(tasks, cur, i)
    ensures Entries(Reaped(tasks, cur, i), ready + [cur]) == Entries(tasks, ready + [cur])
  {
  }

  lemma ReapedIs(tasks: Table, cur: Task, i: nat)
    requires cur in tasks && i < |tasks[cur].children|
    ensures var kids := tasks[cur].children;
            Reaped(tasks, cur, i) == tasks[cur := tasks[cur].(children := kids[..i] + kids[i + 1..])] - {kids[i]}
  {
  }

  lemma MirrorLess(tasks: Table, t: Task)
    requires Mirror(tasks)
    ensures Mirror(tasks - {t})
  {
  }
}
