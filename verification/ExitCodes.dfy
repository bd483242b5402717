/** What becomes of a process that has exited: its exit code reaches a parent, once. */
module ExitCodes {
  import opened Strides
  import opened Tasks
  import opened Kernels

  // t has exited with code and waits to be collected.
  ghost predicate Waiting(s: System, t: Task, pid: nat, code: int) {
    t in s.tasks && s.tasks[t].status == Zombie && s.tasks[t].pid == pid && s.tasks[t].exitCode == code
  }

  // This call collects t: its parent, which is running, gets pid and code.
  ghost predicate Collects(s: System, call: Call, s': System, r: int, c: int, t: Task, pid: nat, code: int) {
    && call.WaitPid? && Wanted(call.pid, pid) && r == pid && c == code
    && s.current in s.tasks && t in s.tasks[s.current].children && t !in s'.tasks
  }

  lemma FetchKeepsZombie(tasks: Table, ready: seq<Task>, s: System, t: Task)
    requires FetchedFrom(tasks, ready, s) && t in tasks && t !in ready
    ensures t in s.tasks && s.tasks[t] == tasks[t]
  {
    hide FirstMin, Pass, Entries;
  }

  lemma ZombieIsNotReady(s: System, t: Task, pid: nat, code: int)
    requires Queued(s.tasks, s.ready, s.current) && Waiting(s, t, pid, code)
    ensures t !in s.ready && t != s.current
  {
  }

  lemma GoneKeepsZombie(tasks: Table, cur: Task, init: Task, exitCode: int, t: Task)
    requires cur in tasks && t in tasks && t != cur
    ensures var r := Gone(tasks, cur, init, exitCode);
            t in r && r[t].status == tasks[t].status && r[t].pid == tasks[t].pid && r[t].exitCode == tasks[t].exitCode
  {
  }

  lemma WaitKeepsZombie(s: System, pid: int, s': System, r: int, c: int, t: Task, p: nat, code: int)
    requires s.current in s.tasks && Waited(s, pid, s', r, c) && Waiting(s, t, p, code) && t != s.current
    ensures Waiting(s', t, p, code) || Collects(s, WaitPid(pid), s', r, c, t, p, code)
  {
    hide Unreferenced, AnyWanted;
  }

  /** One call either leaves a zombie and its exit code alone or is the one that collects it. */
  lemma ZombieStep(s: System, init: Task, call: Call, s': System, r: int, c: int, t: Task, pid: nat, code: int)
    requires Next(s, init, call, s', r, c) && Intact(s, init) && Waiting(s, t, pid, code)
    ensures Waiting(s', t, pid, code) || Collects(s, call, s', r, c, t, pid, code)
  {
    hide Intact, Family, FetchedFrom, Gone, Waited, Collects;
    assert Queued(s.tasks, s.ready, s.current) by { IntactQueued(s, init); }
    ZombieIsNotReady(s, t, pid, code);
    match call
    case Fork =>
    case Spawn(found) =>
    case Yield =>
      FetchKeepsZombie(Suspend(s.tasks, s.current), s.ready + [s.current], s', t);
    case Exit(exitCode) =>
      GoneKeepsZombie(s.tasks, s.current, init, exitCode, t);
      FetchKeepsZombie(Gone(s.tasks, s.current, init, exitCode), s.ready, s', t);
    case WaitPid(p) =>
      WaitKeepsZombie(s, p, s', r, c, t, pid, code);
    case SetPriority(prio) =>
  }

  lemma IntactQueued(s: System, init: Task)
    requires Intact(s, init)
    ensures Queued(s.tasks, s.ready, s.current)
  {
  }

  // A run as Kernel.Run records it.
  ghost predicate Trace(init: Task, calls: seq<Call>, trace: seq<System>, results: seq<(int, int)>) {
    && |trace| == |results| + 1 && |results| <= |calls|
    && (forall i :: 0 <= i < |trace| ==> Intact(trace[i], init))
    && forall i :: 0 <= i < |results| ==> Next(trace[i], init, calls[i], trace[i + 1], results[i].0, results[i].1)
  }

  /**
   Over any run a zombie stays as it is until a waitpid of its parent collects it and gets
   exactly its pid and exit code, and with that it is gone.
   */
  lemma {:induction false} ExitCodeIsDelivered(init: Task, calls: seq<Call>, trace: seq<System>, results: seq<(int, int)>,
                                              i: nat, n: nat, t: Task, pid: nat, code: int)
    returns (j: nat)
    requires Trace(init, calls, trace, results) && i <= n < |trace| && Waiting(trace[i], t, pid, code)
    ensures i <= j <= n
    ensures forall k :: i <= k <= j ==> Waiting(trace[k], t, pid, code)
    ensures j < n ==> Collects(trace[j], calls[j], trace[j + 1], results[j].0, results[j].1, t, pid, code)
    decreases n - i
  {
    hide Next, Intact, Waiting, Collects;
    if i == n {
      j := n;
    } else {
      ZombieStep(trace[i], init, calls[i], trace[i + 1], results[i].0, results[i].1, t, pid, code);
      if Waiting(trace[i + 1], t, pid, code) {
        j := ExitCodeIsDelivered(init, calls, trace, results, i + 1, n, t, pid, code);
      } else {
        j := i;
      }
    }
  }

  /** What exit leaves behind is a zombie with the code it was given. */
  lemma ExitLeavesZombie(s: System, init: Task, exitCode: int, s': System, r: int, c: int)
    requires Next(s, init, Exit(exitCode), s', r, c) && Intact(s, init)
    ensures s.current in s.tasks && Waiting(s', s.current, s.tasks[s.current].pid, exitCode)
  {
    hide Family, FirstMin, Pass, Entries;
    var tasks := Gone(s.tasks, s.current, init, exitCode);
    assert tasks[s.current].status == Zombie;
    FetchKeepsZombie(tasks, s.ready, s', s.current);
  }

  /** The three answers of waitpid: no such child, none of them has exited, or the pid and code of one that has. */
  lemma WaitPidAnswers(s: System, init: Task, pid: int, s': System, r: int, code: int)
    requires Next(s, init, WaitPid(pid), s', r, code)
    ensures forall c :: c in s.tasks[s.current].children ==> c in s.tasks
    ensures var kids := s.tasks[s.current].children;
            && (r == -1 <==> forall c :: c in kids ==> pid != -1 && s.tasks[c].pid != pid)
            && (r == -2 <==> && (exists c :: c in kids && (pid == -1 || s.tasks[c].pid == pid))
                             && forall c :: c in kids && (pid == -1 || s.tasks[c].pid == pid) ==> s.tasks[c].status != Zombie)
            && (r < 0 ==> s' == s)
            && (r >= 0 ==> exists c :: && c in kids && (pid == -1 || s.tasks[c].pid == pid) && s.tasks[c].status == Zombie
                                       && r == s.tasks[c].pid && code == s.tasks[c].exitCode && c !in s'.tasks)
  {
    hide Unreferenced;
    var kids := s.tasks[s.current].children;
    var i := FirstZombie(s.tasks, kids, pid, 0);
    if i < |kids| {
      assert kids[i] in kids && kids[i] !in s'.tasks;
    } else {
      forall c | c in kids && (pid == -1 || s.tasks[c].pid == pid) ensures s.tasks[c].status != Zombie {
        var j :| 0 <= j < |kids| && kids[j] == c;
        assert Wanted(pid, s.tasks[c].pid);
      }
    }
  }

  // ----- a parent that waits does collect

  // t is a zombie, and its parent, which is running, has it as child number x.
  ghost predicate Collectable(s: System, init: Task, t: Task, pid: nat, code: int, x: nat) {
    && Intact(s, init) && Waiting(s, t, pid, code) && s.current in s.tasks
    && x < |s.tasks[s.current].children| && s.tasks[s.current].children[x] == t
    && forall c :: c in s.tasks[s.current].children ==> c in s.tasks
  }

  /** A zombie whose parent runs is among the children the parent can collect. */
  lemma ParentCanCollect(s: System, init: Task, t: Task, pid: nat, code: int) returns (x: nat)
    requires Intact(s, init) && Waiting(s, t, pid, code) && s.tasks[t].parent == s.current
    ensures Collectable(s, init, t, pid, code, x)
  {
    hide NoTwins, ZombiesChildless, PidsUnique, Queued;
    assert HasParent(s.tasks, t);
    x :| x < |s.tasks[s.current].children| && s.tasks[s.current].children[x] == t;
  }

  /** A waitpid for the zombie's own pid collects it at once. */
  lemma WaitForPidCollects(s: System, init: Task, s': System, r: int, c: int, t: Task, pid: nat, code: int, x: nat)
    requires Collectable(s, init, t, pid, code, x) && Next(s, init, WaitPid(pid), s', r, c)
    ensures Collects(s, WaitPid(pid), s', r, c, t, pid, code)
  {
    hide Family, Unreferenced, Queued;
    var kids := s.tasks[s.current].children;
    var i := FirstZombie(s.tasks, kids, pid, 0);
    assert i <= x && kids[i] in s.tasks;
    assert kids[i] == t;
  }

  ghost function Zombies(tasks: Table, kids: seq<Task>): nat
    requires forall c :: c in kids ==> c in tasks
  {
    if kids == [] then 0
    else Zombies(tasks, kids[..|kids| - 1]) + if tasks[kids[|kids| - 1]].status == Zombie then 1 else 0
  }

  // How many children that have exited come before child x.
  ghost function Before(s: System, x: nat): nat
    requires s.current in s.tasks && x <= |s.tasks[s.current].children|
    requires forall c :: c in s.tasks[s.current].children ==> c in s.tasks
  {
    Zombies(s.tasks, s.tasks[s.current].children[..x])
  }

  lemma {:induction false} NoZombies(tasks: Table, kids: seq<Task>)
    requires forall c :: c in kids ==> c in tasks
    ensures Zombies(tasks, kids) == 0 <==> forall c :: c in kids ==> tasks[c].status != Zombie
  {
    if kids != [] {
      var n := |kids| - 1;
      NoZombies(tasks, kids[..n]);
      assert kids == kids[..n] + [kids[n]];
    }
  }

  lemma {:induction false} SameZombies(tasks: Table, tasks': Table, kids: seq<Task>)
    requires forall c :: c in kids ==> c in tasks && c in tasks' && tasks'[c].status == tasks[c].status
    ensures Zombies(tasks, kids) == Zombies(tasks', kids)
  {
    if kids != [] { SameZombies(tasks, tasks', kids[..|kids| - 1]); }
  }

  lemma {:induction false} OneFewer(tasks: Table, tasks': Table, a: seq<Task>, z: Task, b: seq<Task>)
    requires z in tasks && tasks[z].status == Zombie
    requires forall c :: c in a || c in b ==> c in tasks && c in tasks' && tasks'[c].status == tasks[c].status
    ensures Zombies(tasks, a + [z] + b) == Zombies(tasks', a + b) + 1
  {
    if b == [] {
      assert a + [z] + b == a + [z] && a + b == a && (a + [z])[..|a|] == a;
      SameZombies(tasks, tasks', a);
    } else {
      var n := |b| - 1;
      OneFewer(tasks, tasks', a, z, b[..n]);
      assert (a + [z] + b)[..|a| + 1 + n] == a + [z] + b[..n] && (a + b)[..|a| + n] == a + b[..n];
    }
  }

  // A waitpid for any child collects t if no zombie comes before it.
  lemma FirstInLine(s: System, init: Task, s': System, r: int, c: int, t: Task, pid: nat, code: int, x: nat)
    requires Collectable(s, init, t, pid, code, x) && Next(s, init, WaitPid(-1), s', r, c) && Before(s, x) == 0
    ensures Collects(s, WaitPid(-1), s', r, c, t, pid, code)
  {
    hide Family, Unreferenced, Queued, PidsUnique, Zombies;
    var kids := s.tasks[s.current].children;
    NoZombies(s.tasks, kids[..x]);
    var i := FirstZombie(s.tasks, kids, -1, 0);
    assert i <= x && forall j :: 0 <= j < x ==> kids[j] in kids[..x];
  }

  lemma FirstIsBefore(s: System, init: Task, t: Task, pid: nat, code: int, x: nat)
    requires Collectable(s, init, t, pid, code, x) && Before(s, x) > 0
    ensures FirstZombie(s.tasks, s.tasks[s.current].children, -1, 0) < x
  {
    hide Family, Queued, PidsUnique, Zombies;
    var kids := s.tasks[s.current].children;
    NoZombies(s.tasks, kids[..x]);
    var c :| c in kids[..x] && s.tasks[c].status == Zombie;
    var j :| 0 <= j < x && kids[j] == c;
    assert FirstZombie(s.tasks, kids, -1, 0) <= j;
  }

  lemma TakenOut(kids: seq<Task>, i: nat, x: nat)
    requires i < x < |kids|
    ensures var left := kids[..i] + kids[i + 1..]; left[x - 1] == kids[x] && left[..x - 1] == kids[..i] + kids[i + 1..x]
    ensures kids[..x] == kids[..i] + [kids[i]] + kids[i + 1..x]
  {
  }

  // Otherwise it collects one that comes before t, and t moves up.
  lemma MovesUp(s: System, init: Task, s': System, r: int, c: int, t: Task, pid: nat, code: int, x: nat)
    requires Collectable(s, init, t, pid, code, x) && Next(s, init, WaitPid(-1), s', r, c) && Before(s, x) > 0
    requires Intact(s', init)
    ensures x > 0 && Collectable(s', init, t, pid, code, x - 1) && Before(s', x - 1) == Before(s, x) - 1
  {
    hide Family, Queued, PidsUnique, Zombies;
    FirstIsBefore(s, init, t, pid, code, x);
    var kids := s.tasks[s.current].children;
    var i := FirstZombie(s.tasks, kids, -1, 0);
    TakenOut(kids, i, x);
    assert s'.tasks[s'.current].children == kids[..i] + kids[i + 1..];
    OneFewer(s.tasks, s'.tasks, kids[..i], kids[i], kids[i + 1..x]);
  }

  /**
   A parent that keeps waiting for any child collects each in its turn: if k of its zombies come
   before t in its list of children, the call after k others is the one that collects t.
   */
  lemma {:induction false} CollectedInTurn(init: Task, calls: seq<Call>, trace: seq<System>, results: seq<(int, int)>,
                                          i: nat, t: Task, pid: nat, code: int, x: nat, k: nat)
    requires Trace(init, calls, trace, results) && i + k < |results|
    requires forall j :: i <= j <= i + k ==> calls[j] == WaitPid(-1)
    requires Collectable(trace[i], init, t, pid, code, x) && k == Before(trace[i], x)
    ensures forall j :: i <= j <= i + k ==> Waiting(trace[j], t, pid, code)
    ensures Collects(trace[i + k], calls[i + k], trace[i + k + 1], results[i + k].0, results[i + k].1, t, pid, code)
    decreases k
  {
    hide Next, Intact, Collects, Before;
    if k == 0 {
      FirstInLine(trace[i], init, trace[i + 1], results[i].0, results[i].1, t, pid, code, x);
    } else {
      MovesUp(trace[i], init, trace[i + 1], results[i].0, results[i].1, t, pid, code, x);
      CollectedInTurn(init, calls, trace, results, i + 1, t, pid, code, x - 1, k - 1);
    }
  }
}
