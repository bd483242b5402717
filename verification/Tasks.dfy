/** Task control blocks, and the shape of the process tree that every step keeps. */
module Tasks {
  import opened Strides

  datatype Status = Ready | Running | Zombie

  /** TaskControlBlock. */
  class Task {
    const pid: nat
    var status: Status
    var priority: nat
    var stride: nat
    var parent: Task?
    var children: seq<Task>
    var exitCode: int

    // The fields that fork, spawn and new set alike.
    constructor (pid: nat, parent: Task?)
      ensures InfoOf(this) == Info(pid, Ready, 16, 0, parent, [], 0)
    {
      this.pid := pid;
      status := Ready;
      priority := 16;
      stride := 0;
      this.parent := parent;
      children := [];
      exitCode := 0;
    }

    /** update_stride. */
    method UpdateStride()
      requires priority > 0
      modifies `stride
      ensures stride == old(stride) + Pass(EntryOf(old(InfoOf(this))))
    {
      stride := stride + BIG_STRIDE / priority;
    }

    // What fetch and run_tasks do to the task they pick.
    method Start()
      requires priority >= 2
      modifies `stride, `status
      ensures InfoOf(this) == old(InfoOf(this)).(status := Running, stride := old(stride) + Pass(EntryOf(old(InfoOf(this)))))
    {
      UpdateStride();
      status := Running;
    }
  }

  datatype Info =
    Info(pid: nat, status: Status, priority: nat, stride: nat, parent: Task?, children: seq<Task>, exitCode: int)

  ghost function InfoOf(t: Task): Info
    reads t
  {
    Info(t.pid, t.status, t.priority, t.stride, t.parent, t.children, t.exitCode)
  }

  type Table = map<Task, Info>

  // The table says what the fields are.
  ghost predicate Mirror(tasks: Table)
    reads tasks.Keys
  {
    forall t :: t in tasks ==> InfoOf(t) == tasks[t]
  }

  lemma MirrorApart(tasks: Table, t: Task)
    requires Mirror(tasks)
    ensures Mirror(tasks - {t}) && (t in tasks ==> InfoOf(t) == tasks[t])
  {
  }

  lemma MirrorAgain(tasks: Table, tasks': Table, t: Task)
    requires Mirror(tasks - {t}) && tasks' == tasks[t := InfoOf(t)]
    ensures Mirror(tasks')
  {
    forall x | x in tasks' ensures InfoOf(x) == tasks'[x] {
      assert x != t ==> x in tasks - {t} && (tasks - {t})[x] == tasks'[x];
    }
  }

  ghost predicate NoRepeat(s: seq<Task>) {
    forall i, j :: 0 <= i < j < |s| ==> s[i] != s[j]
  }

  lemma NoRepeatSum(a: seq<Task>, b: seq<Task>)
    requires NoRepeat(a) && NoRepeat(b) && forall x :: x in b ==> x !in a
    ensures NoRepeat(a + b)
  {
    forall i, j | 0 <= i < j < |a + b| ensures (a + b)[i] != (a + b)[j] {
      assert j >= |a| ==> (a + b)[j] == b[j - |a|] && b[j - |a|] in b;
      assert i < |a| ==> (a + b)[i] == a[i] && a[i] in a;
    }
  }

  // ----- what holds between any two system calls

  // Each task that is not a zombie runs or waits in the queue, once.
  ghost predicate Queued(tasks: Table, ready: seq<Task>, current: Task?) {
    && NoRepeat(ready)
    && (forall t :: t in ready ==> t in tasks && tasks[t].status == Ready && t != current)
    && (current != null ==> current in tasks && tasks[current].status == Running)
    && (forall t :: t in tasks && tasks[t].status != Zombie ==> t == current || t in ready)
  }

  // Each task but init is in exactly one list of children, once: that of its parent.
  ghost predicate Family(tasks: Table, init: Task) {
    && init in tasks && tasks[init].status != Zombie
    && ChildrenKnowParents(tasks, init) && NoTwins(tasks) && ParentsKnowChildren(tasks, init) && ZombiesChildless(tasks)
  }

  ghost predicate ChildrenKnowParents(tasks: Table, init: Task) {
    forall p, c :: p in tasks && c in tasks[p].children ==> c in tasks && c != init && tasks[c].parent == p
  }

  ghost predicate NoTwins(tasks: Table) {
    forall p :: p in tasks ==> NoRepeat(tasks[p].children)
  }

  // Named, so that the verifier does not follow parents of parents on its own.
  ghost predicate HasParent(tasks: Table, t: Task)
    requires t in tasks
  {
    tasks[t].parent != null && tasks[t].parent in tasks && t in tasks[tasks[t].parent].children
  }

  ghost predicate ParentsKnowChildren(tasks: Table, init: Task) {
    forall t {:trigger HasParent(tasks, t)} :: t in tasks && t != init ==> HasParent(tasks, t)
  }

  ghost predicate ZombiesChildless(tasks: Table) {
    forall t :: t in tasks && tasks[t].status == Zombie ==> tasks[t].children == []
  }

  // Parents have smaller ranks, so the parent links form a tree under init.
  ghost predicate Ranked(tasks: Table, init: Task, rank: map<Task, nat>) {
    && rank.Keys == tasks.Keys && init in tasks && rank[init] == 0
    && forall t {:trigger BelowParent(tasks, rank, t)} :: t in tasks && t != init ==> BelowParent(tasks, rank, t)
  }

  ghost predicate BelowParent(tasks: Table, rank: map<Task, nat>, t: Task)
    requires t in tasks
  {
    && tasks[t].parent != null && tasks[t].parent in tasks
    && tasks[t].parent in rank && t in rank && rank[tasks[t].parent] < rank[t]
  }

  ghost predicate PidsUnique(tasks: Table) {
    forall t, u :: t in tasks && u in tasks && t != u ==> tasks[t].pid != tasks[u].pid
  }

  // The pids in use are those of the tasks, each used once.
  ghost predicate PidsOk(tasks: Table, used: set<nat>) {
    && PidsUnique(tasks)
    && (forall t :: t in tasks ==> tasks[t].pid in used)
    && (forall n :: n in used ==> exists t :: t in tasks && tasks[t].pid == n)
  }

  ghost predicate Tree(tasks: Table, init: Task, rank: map<Task, nat>, used: set<nat>) {
    Family(tasks, init) && Ranked(tasks, init, rank) && PidsOk(tasks, used)
  }

  // Priorities are legal, and no stride is more than steps fetches can make it.
  ghost predicate Paced(tasks: Table, steps: nat) {
    forall t :: t in tasks ==> tasks[t].priority >= 2 && tasks[t].stride <= steps * HALF
  }

  // Nothing but a local variable refers to t any more.
  ghost predicate Unreferenced(tasks: Table, ready: seq<Task>, current: Task?, t: Task) {
    t !in ready && t != current && forall p :: p in tasks ==> t !in tasks[p].children
  }

  /** A task's parent is not a zombie: whoever has to wait for it can. */
  lemma ParentAlive(tasks: Table, init: Task, t: Task)
    requires Family(tasks, init) && t in tasks && t != init
    ensures tasks[t].parent != null && tasks[t].parent in tasks && tasks[tasks[t].parent].status != Zombie
  {
    assert HasParent(tasks, t);
  }

  /** With no task running the queue is not empty: init is in it. */
  lemma SomeoneReady(tasks: Table, ready: seq<Task>, init: Task)
    requires Queued(tasks, ready, null) && Family(tasks, init)
    ensures init in ready && ready != []
  {
  }

  /** Following parents leads to init. */
  lemma {:induction false} ReachesInit(tasks: Table, init: Task, rank: map<Task, nat>, t: Task) returns (path: seq<Task>)
    requires Family(tasks, init) && Ranked(tasks, init, rank) && t in tasks
    ensures path != [] && path[0] == t && path[|path| - 1] == init
    ensures forall x :: x in path ==> x in tasks
    ensures forall i :: 0 <= i < |path| - 1 ==> tasks[path[i]].parent == path[i + 1]
    decreases rank[t]
  {
    if t == init {
      path := [t];
    } else {
      assert HasParent(tasks, t) && BelowParent(tasks, rank, t);
      var rest := ReachesInit(tasks, init, rank, tasks[t].parent);
      path := [t] + rest;
    }
  }

  // ----- the entries the scheduler sees

  ghost function EntryOf(i: Info): Entry { Entry(i.pid, i.stride, i.priority) }

  ghost function Entries(tasks: Table, q: seq<Task>): (r: seq<Entry>)
    requires forall t :: t in q ==> t in tasks
    ensures |r| == |q| && forall i :: 0 <= i < |q| ==> r[i] == EntryOf(tasks[q[i]])
  {
    seq(|q|, i requires 0 <= i < |q| => EntryOf(tasks[q[i]]))
  }

  // ----- a new child

  ghost function Born(tasks: Table, cur: Task, c: Task, pid: nat): Table
    requires cur in tasks
  {
    tasks[cur := tasks[cur].(children := tasks[cur].children + [c])][c := Info(pid, Ready, 16, 0, cur, [], 0)]
  }

  lemma BornFamily(tasks: Table, init: Task, cur: Task, c: Task, pid: nat)
    requires Family(tasks, init) && cur in tasks && tasks[cur].status == Running && c !in tasks
    ensures Family(Born(tasks, cur, c, pid), init)
  {
    hide NoTwins, ParentsKnowChildren, ChildrenKnowParents, ZombiesChildless, NoRepeat;
    BornNoTwins(tasks, init, cur, c, pid);
    BornChildren(tasks, init, cur, c, pid);
    BornParents(tasks, init, cur, c, pid);
    BornZombies(tasks, cur, c, pid);
  }

  lemma BornChildren(tasks: Table, init: Task, cur: Task, c: Task, pid: nat)
    requires ChildrenKnowParents(tasks, init) && init in tasks && cur in tasks && c !in tasks
    ensures ChildrenKnowParents(Born(tasks, cur, c, pid), init)
  {
  }

  lemma BornParents(tasks: Table, init: Task, cur: Task, c: Task, pid: nat)
    requires ParentsKnowChildren(tasks, init) && cur in tasks && c !in tasks
    ensures ParentsKnowChildren(Born(tasks, cur, c, pid), init)
  {
    var tasks' := Born(tasks, cur, c, pid);
    forall t | t in tasks' && t != init ensures HasParent(tasks', t) {
      assert t != c ==> HasParent(tasks, t);
    }
  }

  lemma BornZombies(tasks: Table, cur: Task, c: Task, pid: nat)
    requires ZombiesChildless(tasks) && cur in tasks && tasks[cur].status == Running && c !in tasks
    ensures ZombiesChildless(Born(tasks, cur, c, pid))
  {
  }

  lemma BornNoTwins(tasks: Table, init: Task, cur: Task, c: Task, pid: nat)
    requires NoTwins(tasks) && ChildrenKnowParents(tasks, init) && cur in tasks && c !in tasks
    ensures NoTwins(Born(tasks, cur, c, pid))
  {
    assert NoRepeat(tasks[cur].children);
    assert c !in tasks[cur].children;
  }

  lemma BornQueued(tasks: Table, ready: seq<Task>, cur: Task, c: Task, pid: nat)
    requires Queued(tasks, ready, cur) && cur in tasks && c !in tasks
    ensures Queued(Born(tasks, cur, c, pid), ready + [c], cur)
  {
  }

  lemma BornRanked(tasks: Table, init: Task, rank: map<Task, nat>, cur: Task, c: Task, pid: nat)
    requires Ranked(tasks, init, rank) && cur in tasks && c !in tasks
    ensures Ranked(Born(tasks, cur, c, pid), init, rank[c := rank[cur] + 1])
  {
    var tasks', rank' := Born(tasks, cur, c, pid), rank[c := rank[cur] + 1];
    forall t | t in tasks' && t != init ensures BelowParent(tasks', rank', t) {
      assert t != c ==> BelowParent(tasks, rank, t);
    }
  }

  lemma BornPids(tasks: Table, used: set<nat>, cur: Task, c: Task, pid: nat)
    requires PidsOk(tasks, used) && cur in tasks && c !in tasks && pid !in used
    ensures PidsOk(Born(tasks, cur, c, pid), used + {pid})
  {
    var tasks' := Born(tasks, cur, c, pid);
    assert forall t :: t in tasks ==> t in tasks' && tasks'[t].pid == tasks[t].pid;
    forall n | n in used + {pid} ensures exists t :: t in tasks' && tasks'[t].pid == n {
      if n == pid {
        assert c in tasks' && tasks'[c].pid == n;
      } else {
        var t :| t in tasks && tasks[t].pid == n;
        assert t in tasks';
      }
    }
  }

  // ----- changes of fields that only the scheduler reads

  // One task's status, priority or stride changed.
  ghost predicate Touched(tasks: Table, tasks': Table, t: Task) {
    t in tasks && t in tasks' && tasks' == tasks[t := tasks'[t]]
    && tasks'[t].pid == tasks[t].pid && tasks'[t].parent == tasks[t].parent && tasks'[t].children == tasks[t].children
  }

  // Nothing that the tree depends on changed.
  ghost predicate SameTree(tasks: Table, tasks': Table) {
    && tasks'.Keys == tasks.Keys
    && forall x :: x in tasks ==>
         && tasks'[x].pid == tasks[x].pid && tasks'[x].parent == tasks[x].parent && tasks'[x].children == tasks[x].children
         && (tasks'[x].status == Zombie <==> tasks[x].status == Zombie)
  }

  lemma TouchedKeeps(tasks: Table, tasks': Table, t: Task, init: Task, rank: map<Task, nat>, used: set<nat>)
    requires Touched(tasks, tasks', t) && (tasks'[t].status == Zombie <==> tasks[t].status == Zombie)
    requires Tree(tasks, init, rank, used)
    ensures Tree(tasks', init, rank, used)
  {
    hide Family, Ranked, PidsOk;
    assert SameTree(tasks, tasks');
    hide Touched;
    SameFamily(tasks, tasks', init);
    SameRanked(tasks, tasks', init, rank);
    SamePids(tasks, tasks', used);
  }

  lemma SameFamily(tasks: Table, tasks': Table, init: Task)
    requires SameTree(tasks, tasks') && Family(tasks, init)
    ensures Family(tasks', init)
  {
    hide NoTwins, ParentsKnowChildren, ChildrenKnowParents, ZombiesChildless, NoRepeat;
    SameChildren(tasks, tasks', init);
    SameParents(tasks, tasks', init);
    SameLists(tasks, tasks');
  }

  lemma SameChildren(tasks: Table, tasks': Table, init: Task)
    requires SameTree(tasks, tasks') && ChildrenKnowParents(tasks, init)
    ensures ChildrenKnowParents(tasks', init)
  {
  }

  lemma SameParents(tasks: Table, tasks': Table, init: Task)
    requires SameTree(tasks, tasks') && ParentsKnowChildren(tasks, init)
    ensures ParentsKnowChildren(tasks', init)
  {
    forall t | t in tasks' && t != init ensures HasParent(tasks', t) {
      assert HasParent(tasks, t);
    }
  }

  lemma SameLists(tasks: Table, tasks': Table)
    requires SameTree(tasks, tasks') && NoTwins(tasks) && ZombiesChildless(tasks)
    ensures NoTwins(tasks') && ZombiesChildless(tasks')
  {
  }

  lemma SameRanked(tasks: Table, tasks': Table, init: Task, rank: map<Task, nat>)
    requires SameTree(tasks, tasks') && Ranked(tasks, init, rank)
    ensures Ranked(tasks', init, rank)
  {
    forall t | t in tasks' && t != init ensures BelowParent(tasks', rank, t) {
      assert BelowParent(tasks, rank, t);
    }
  }

  lemma SamePids(tasks: Table, tasks': Table, used: set<nat>)
    requires SameTree(tasks, tasks') && PidsOk(tasks, used)
    ensures PidsOk(tasks', used)
  {
  }

  ghost function Suspend(tasks: Table, t: Task): Table
    requires t in tasks
  {
    tasks[t := tasks[t].(status := Ready)]
  }

  lemma SuspendKeeps(tasks: Table, ready: seq<Task>, t: Task, init: Task, rank: map<Task, nat>, used: set<nat>, steps: nat)
    requires t in tasks && Queued(tasks, ready, t) && Tree(tasks, init, rank, used) && Paced(tasks, steps)
    ensures Queued(Suspend(tasks, t), ready + [t], null)
    ensures Tree(Suspend(tasks, t), init, rank, used) && Paced(Suspend(tasks, t), steps)
  {
    hide Tree;
    TouchedKeeps(tasks, Suspend(tasks, t), t, init, rank, used);
  }

  // A fetched task is charged for its turn and runs.
  ghost function Dispatch(tasks: Table, t: Task): Table
    requires t in tasks && tasks[t].priority >= 2
  {
    tasks[t := tasks[t].(status := Running, stride := tasks[t].stride + Pass(EntryOf(tasks[t])))]
  }

  lemma DispatchQueued(tasks: Table, ready: seq<Task>, i: nat)
    requires Queued(tasks, ready, null) && i < |ready| && ready[i] in tasks && tasks[ready[i]].priority >= 2
    ensures Queued(Dispatch(tasks, ready[i]), ready[..i] + ready[i + 1..], ready[i])
  {
    hide Pass;
    var t, r := ready[i], ready[..i] + ready[i + 1..];
    assert forall j :: 0 <= j < |r| ==> r[j] == ready[if j < i then j else j + 1];
    forall x | x in ready && x != t ensures x in r {
      var j :| 0 <= j < |ready| && ready[j] == x;
      assert r[if j < i then j else j - 1] == x;
    }
  }

  lemma DispatchPaced(tasks: Table, steps: nat, t: Task)
    requires Paced(tasks, steps) && t in tasks && tasks[t].priority >= 2
    ensures Paced(Dispatch(tasks, t), steps + 1)
  {
    PassBound(EntryOf(tasks[t]));
    hide Pass;
  }

  lemma DispatchTree(tasks: Table, t: Task, init: Task, rank: map<Task, nat>, used: set<nat>)
    requires Tree(tasks, init, rank, used) && t in tasks && tasks[t].priority >= 2 && tasks[t].status != Zombie
    ensures Tree(Dispatch(tasks, t), init, rank, used)
  {
    hide Tree, Pass;
    TouchedKeeps(tasks, Dispatch(tasks, t), t, init, rank, used);
  }

  /** A fetch, seen from the next fetch, is a round. */
  lemma DispatchIsRound(tasks: Table, ready: seq<Task>)
    requires ready != [] && NoRepeat(ready) && forall t :: t in ready ==> t in tasks && tasks[t].priority >= 2
    ensures var q := Entries(tasks, ready);
            var i := FirstMin(q);
            && Runnable(q) && i < |ready|
            && Entries(Dispatch(tasks, ready[i]), ready[..i] + ready[i + 1..] + [ready[i]]) == Round(q)
  {
    hide Pass, FirstMin;
    var q := Entries(tasks, ready);
    var i := FirstMin(q);
    var tasks', r := Dispatch(tasks, ready[i]), ready[..i] + ready[i + 1..] + [ready[i]];
    assert q[i] == EntryOf(tasks[ready[i]]);
    forall j | 0 <= j < |r| ensures EntryOf(tasks'[r[j]]) == Round(q)[j] {
      Rotated(q, i, Charged(q[i]), if j < i then j else if j == |q| - 1 then i else j + 1);
    }
  }

  // ----- exit

  // The exiting task is a zombie without children, which init adopts: the first ones of kids so far.
  ghost function Left(tasks: Table, cur: Task, init: Task, kids: seq<Task>, code: int): Table {
    map t | t in tasks ::
      if t == cur then tasks[t].(status := Zombie, exitCode := code)
      else if t == init then tasks[t].(children := tasks[t].children + kids)
      else if t in kids then tasks[t].(parent := init)
      else tasks[t]
  }

  // The same once its own list is cleared.
  ghost function Gone(tasks: Table, cur: Task, init: Task, code: int): Table
    requires cur in tasks
  {
    var r := Left(tasks, cur, init, tasks[cur].children, code);
    r[cur := r[cur].(children := [])]
  }

  lemma LeftNext(tasks: Table, cur: Task, init: Task, kids: seq<Task>, i: nat, code: int)
    requires i < |kids| && kids[i] in tasks && kids[i] != init && kids[i] != cur && init in tasks && cur != init
    ensures var r, c := Left(tasks, cur, init, kids[..i], code), kids[i];
            && c in r && init in r
            && Left(tasks, cur, init, kids[..i + 1], code)
               == r[c := r[c].(parent := init)][init := r[init].(children := r[init].children + [c])]
  {
    assert kids[..i + 1] == kids[..i] + [kids[i]];
    assert tasks[init].children + kids[..i + 1] == tasks[init].children + kids[..i] + [kids[i]];
  }

  lemma NothingLeftYet(tasks: Table, cur: Task, init: Task, code: int)
    requires cur in tasks && init in tasks
    ensures Left(tasks, cur, init, [], code) == tasks[cur := tasks[cur].(status := Zombie, exitCode := code)]
  {
    assert tasks[init].children + [] == tasks[init].children;
  }

  lemma GoneFamily(tasks: Table, init: Task, cur: Task, code: int)
    requires Family(tasks, init) && cur in tasks && cur != init && cur !in tasks[cur].children
    ensures Family(Gone(tasks, cur, init, code), init)
  {
    hide NoTwins, ParentsKnowChildren, ChildrenKnowParents, ZombiesChildless, NoRepeat;
    GoneChildren(tasks, init, cur, code);
    GoneParents(tasks, init, cur, code);
    GoneNoTwins(tasks, init, cur, code);
    GoneZombies(tasks, init, cur, code);
  }

  lemma GoneChildren(tasks: Table, init: Task, cur: Task, code: int)
    requires ChildrenKnowParents(tasks, init) && init in tasks && cur in tasks && cur != init && cur !in tasks[cur].children
    ensures ChildrenKnowParents(Gone(tasks, cur, init, code), init)
  {
    var tasks', kids := Gone(tasks, cur, init, code), tasks[cur].children;
    forall p, c | p in tasks' && c in tasks'[p].children ensures c in tasks' && c != init && tasks'[c].parent == p {
      assert (p == init && c in kids) || c in tasks[p].children;
    }
  }

  lemma GoneParents(tasks: Table, init: Task, cur: Task, code: int)
    requires ChildrenKnowParents(tasks, init) && ParentsKnowChildren(tasks, init)
    requires init in tasks && cur in tasks && cur != init && cur !in tasks[cur].children
    ensures ParentsKnowChildren(Gone(tasks, cur, init, code), init)
  {
    var tasks', kids := Gone(tasks, cur, init, code), tasks[cur].children;
    forall t | t in tasks' && t != init ensures HasParent(tasks', t) {
      assert HasParent(tasks, t);
      assert tasks[t].parent == cur ==> t in kids;
      assert tasks'[t].parent == if t in kids then init else tasks[t].parent;
    }
  }

  lemma GoneNoTwins(tasks: Table, init: Task, cur: Task, code: int)
    requires ChildrenKnowParents(tasks, init) && NoTwins(tasks) && init in tasks && cur in tasks && cur != init
    ensures NoTwins(Gone(tasks, cur, init, code))
  {
    var tasks', kids, own := Gone(tasks, cur, init, code), tasks[cur].children, tasks[init].children;
    assert NoRepeat(own) && NoRepeat(kids) && forall c :: c in kids ==> c !in own;
    NoRepeatSum(own, kids);
    assert tasks'[init].children == own + kids;
  }

  lemma GoneZombies(tasks: Table, init: Task, cur: Task, code: int)
    requires ZombiesChildless(tasks) && init in tasks && cur in tasks && tasks[init].status != Zombie && cur != init
    ensures ZombiesChildless(Gone(tasks, cur, init, code)) && Gone(tasks, cur, init, code)[init].status != Zombie
  {
  }

  lemma GoneQueued(tasks: Table, ready: seq<Task>, init: Task, cur: Task, code: int)
    requires Queued(tasks, ready, cur) && cur in tasks
    ensures Queued(Gone(tasks, cur, init, code), ready, null)
  {
  }

  lemma GoneRanked(tasks: Table, init: Task, rank: map<Task, nat>, cur: Task, code: int)
    requires Ranked(tasks, init, rank) && cur in tasks && cur != init
    ensures Ranked(Gone(tasks, cur, init, code), init, rank)
  {
    var tasks' := Gone(tasks, cur, init, code);
    forall t | t in tasks' && t != init ensures BelowParent(tasks', rank, t) {
      assert BelowParent(tasks, rank, t);
    }
  }

  lemma GonePids(tasks: Table, used: set<nat>, init: Task, cur: Task, code: int)
    requires PidsOk(tasks, used) && cur in tasks
    ensures PidsOk(Gone(tasks, cur, init, code), used)
  {
    var tasks' := Gone(tasks, cur, init, code);
    assert forall t :: t in tasks ==> t in tasks' && tasks'[t].pid == tasks[t].pid;
  }

  lemma GoneKeeps(tasks: Table, ready: seq<Task>, init: Task, rank: map<Task, nat>, used: set<nat>, steps: nat,
                  cur: Task, code: int)
    requires Tree(tasks, init, rank, used) && Queued(tasks, ready, cur) && Paced(tasks, steps) && cur in tasks && cur != init
    ensures Tree(Gone(tasks, cur, init, code), init, rank, used) && Queued(Gone(tasks, cur, init, code), ready, null)
    ensures Paced(Gone(tasks, cur, init, code), steps)
  {
    hide Family, Ranked, PidsOk, Queued;
    NotOwnChild(tasks, init, rank, cur);
    GoneFamily(tasks, init, cur, code);
    GoneRanked(tasks, init, rank, cur, code);
    GonePids(tasks, used, init, cur, code);
    GoneQueued(tasks, ready, init, cur, code);
  }

  // A task is not its own child.
  lemma NotOwnChild(tasks: Table, init: Task, rank: map<Task, nat>, t: Task)
    requires Family(tasks, init) && Ranked(tasks, init, rank) && t in tasks
    ensures t !in tasks[t].children
  {
    assert t != init ==> BelowParent(tasks, rank, t);
  }

  // ----- waitpid

  // The i-th child of cur is gone.
  ghost function Reaped(tasks: Table, cur: Task, i: nat): Table
    requires cur in tasks && i < |tasks[cur].children|
  {
    var kids := tasks[cur].children;
    tasks[cur := tasks[cur].(children := kids[..i] + kids[i + 1..])] - {kids[i]}
  }

  ghost predicate ReapableAt(tasks: Table, init: Task, cur: Task, i: nat) {
    && Family(tasks, init) && cur in tasks && tasks[cur].status != Zombie && i < |tasks[cur].children|
    && tasks[cur].children[i] in tasks && tasks[tasks[cur].children[i]].status == Zombie
  }

  lemma ReapedFamily(tasks: Table, init: Task, cur: Task, i: nat)
    requires ReapableAt(tasks, init, cur, i)
    ensures Family(Reaped(tasks, cur, i), init)
  {
    hide NoTwins, ParentsKnowChildren, ChildrenKnowParents, ZombiesChildless, NoRepeat;
    Leaves(tasks, cur, i);
    ReapedChildren(tasks, init, cur, i);
    ReapedParents(tasks, init, cur, i);
    ReapedNoTwins(tasks, init, cur, i);
    ReapedZombies(tasks, init, cur, i);
  }

  // What is left of the list of children.
  lemma Leaves(tasks: Table, cur: Task, i: nat)
    requires NoTwins(tasks) && cur in tasks && i < |tasks[cur].children|
    ensures var kids := tasks[cur].children;
            var left := kids[..i] + kids[i + 1..];
            NoRepeat(left) && forall x :: x in left <==> x in kids && x != kids[i]
  {
    var kids := tasks[cur].children;
    var left := kids[..i] + kids[i + 1..];
    assert NoRepeat(kids);
    assert forall j :: 0 <= j < |left| ==> left[j] == kids[if j < i then j else j + 1];
    forall x | x in kids && x != kids[i] ensures x in left {
      var j :| 0 <= j < |kids| && kids[j] == x;
      assert left[if j < i then j else j - 1] == x;
    }
  }

  lemma ReapedChildren(tasks: Table, init: Task, cur: Task, i: nat)
    requires ReapableAt(tasks, init, cur, i)
    ensures ChildrenKnowParents(Reaped(tasks, cur, i), init)
  {
    var tasks' := Reaped(tasks, cur, i);
    Leaves(tasks, cur, i);
    hide NoTwins, ParentsKnowChildren, ZombiesChildless, NoRepeat;
    forall p, x | p in tasks' && x in tasks'[p].children ensures x in tasks' && x != init && tasks'[x].parent == p {
      assert x in tasks[p].children && (p == cur ==> x != tasks[cur].children[i]);
      assert tasks[tasks[cur].children[i]].parent == cur;
    }
  }

  lemma ReapedParents(tasks: Table, init: Task, cur: Task, i: nat)
    requires ReapableAt(tasks, init, cur, i)
    ensures ParentsKnowChildren(Reaped(tasks, cur, i), init)
  {
    var tasks', c := Reaped(tasks, cur, i), tasks[cur].children[i];
    Leaves(tasks, cur, i);
    assert tasks[c].children == [];
    hide NoTwins, NoRepeat, ZombiesChildless, ChildrenKnowParents;
    forall t | t in tasks' && t != init ensures HasParent(tasks', t) {
      assert HasParent(tasks, t);
      assert tasks[t].parent != c;
    }
  }

  lemma ReapedNoTwins(tasks: Table, init: Task, cur: Task, i: nat)
    requires ReapableAt(tasks, init, cur, i)
    ensures NoTwins(Reaped(tasks, cur, i))
  {
    Leaves(tasks, cur, i);
    hide NoRepeat, ParentsKnowChildren, ChildrenKnowParents, ZombiesChildless;
  }

  lemma ReapedZombies(tasks: Table, init: Task, cur: Task, i: nat)
    requires ReapableAt(tasks, init, cur, i)
    ensures ZombiesChildless(Reaped(tasks, cur, i))
    ensures init in Reaped(tasks, cur, i) && Reaped(tasks, cur, i)[init].status != Zombie
  {
    hide NoRepeat, NoTwins, ParentsKnowChildren;
    assert tasks[cur].children[i] != init;
  }

  lemma ReapedQueued(tasks: Table, ready: seq<Task>, cur: Task, i: nat)
    requires Queued(tasks, ready, cur) && cur in tasks && i < |tasks[cur].children|
    requires tasks[cur].children[i] in tasks && tasks[tasks[cur].children[i]].status == Zombie
    ensures Queued(Reaped(tasks, cur, i), ready, cur)
  {
  }

  /** The reference-count assertion of waitpid: no queue, processor or other list still holds the zombie. */
  lemma ReapedUnreferenced(tasks: Table, ready: seq<Task>, init: Task, cur: Task, i: nat)
    requires Queued(tasks, ready, cur) && Family(tasks, init) && cur in tasks && i < |tasks[cur].children|
    requires tasks[cur].children[i] in tasks && tasks[tasks[cur].children[i]].status == Zombie
    ensures Unreferenced(Reaped(tasks, cur, i), ready, cur, tasks[cur].children[i])
  {
    var kids := tasks[cur].children;
    assert NoRepeat(kids);
    assert kids[i] !in kids[..i] + kids[i + 1..];
  }

  lemma ReapedRanked(tasks: Table, init: Task, rank: map<Task, nat>, cur: Task, i: nat)
    requires Ranked(tasks, init, rank) && ReapableAt(tasks, init, cur, i)
    ensures Ranked(Reaped(tasks, cur, i), init, rank - {tasks[cur].children[i]})
  {
    hide Family, Ranked;
    NobodysParent(tasks, init, cur, i);
    RankedWithout(tasks, init, rank, cur, i);
  }

  lemma NobodysParent(tasks: Table, init: Task, cur: Task, i: nat)
    requires ReapableAt(tasks, init, cur, i)
    ensures tasks[cur].children[i] != init && tasks[cur].children[i] != cur
    ensures forall t :: t in tasks && t != init ==> tasks[t].parent != tasks[cur].children[i]
  {
    hide NoTwins, NoRepeat;
    assert tasks[tasks[cur].children[i]].children == [];
    forall t | t in tasks && t != init ensures tasks[t].parent != tasks[cur].children[i] {
      assert HasParent(tasks, t);
    }
  }

  lemma RankedWithout(tasks: Table, init: Task, rank: map<Task, nat>, cur: Task, i: nat)
    requires Ranked(tasks, init, rank) && cur in tasks && i < |tasks[cur].children|
    requires tasks[cur].children[i] != init && tasks[cur].children[i] != cur
    requires forall t :: t in tasks && t != init ==> tasks[t].parent != tasks[cur].children[i]
    ensures Ranked(Reaped(tasks, cur, i), init, rank - {tasks[cur].children[i]})
  {
    var tasks', rank' := Reaped(tasks, cur, i), rank - {tasks[cur].children[i]};
    forall t | t in tasks' && t != init ensures BelowParent(tasks', rank', t) {
      assert BelowParent(tasks, rank, t);
    }
  }

  lemma ReapedPids(tasks: Table, used: set<nat>, cur: Task, i: nat)
    requires PidsOk(tasks, used) && cur in tasks && i < |tasks[cur].children|
    requires tasks[cur].children[i] in tasks && tasks[cur].children[i] != cur
    ensures PidsOk(Reaped(tasks, cur, i), used - {tasks[tasks[cur].children[i]].pid})
  {
    var c, tasks' := tasks[cur].children[i], Reaped(tasks, cur, i);
    assert forall t :: t in tasks' ==> t in tasks && t != c && tasks'[t].pid == tasks[t].pid;
    forall n | n in used && n != tasks[c].pid ensures exists t :: t in tasks' && tasks'[t].pid == n {
      var t :| t in tasks && tasks[t].pid == n;
      assert t in tasks';
    }
  }

  lemma ReapedKeeps(tasks: Table, ready: seq<Task>, init: Task, rank: map<Task, nat>, used: set<nat>, steps: nat,
                    cur: Task, i: nat)
    requires Tree(tasks, init, rank, used) && Queued(tasks, ready, cur) && Paced(tasks, steps)
    requires ReapableAt(tasks, init, cur, i)
    ensures var c := tasks[cur].children[i];
            && c != cur && tasks[c].pid in used
            && Tree(Reaped(tasks, cur, i), init, rank - {c}, used - {tasks[c].pid})
            && Queued(Reaped(tasks, cur, i), ready, cur) && Paced(Reaped(tasks, cur, i), steps)
            && Unreferenced(Reaped(tasks, cur, i), ready, cur, c)
  {
    hide Family, Ranked, Queued, Unreferenced;
    NobodysParent(tasks, init, cur, i);
    ReapedFamily(tasks, init, cur, i);
    ReapedRanked(tasks, init, rank, cur, i);
    ReapedQueued(tasks, ready, cur, i);
    ReapedUnreferenced(tasks, ready, init, cur, i);
    ReapedPids(tasks, used, cur, i);
    hide PidsOk;
  }
}
