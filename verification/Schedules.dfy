/** Two runs from boot that show what the scheduler does not promise. */
module Schedules {
  import opened Strides
  import opened Tasks
  import opened Kernels

  // What a turn costs a task whose priority nobody has set.
  const TURN := 5555555

  lemma FirstProcess(k: Kernel)
    requires k.Valid() && k.current == k.initproc && k.ready == []
    ensures k.current in k.tasks && k.tasks[k.initproc].pid == k.initproc.pid && |k.Queue()| == 1
  {
  }

  // The next fetch will see this queue if the running task yields.
  ghost predicate Lined(k: Kernel, q: seq<Entry>)
    reads k
  {
    && k.current != null && k.current in k.tasks && (forall t :: t in k.ready ==> t in k.tasks)
    && k.Queue() == q
  }

  /** The only task forks. */
  method Child(k: Kernel, ghost e: Entry) returns (child: nat)
    requires k.Valid() && k.ready == [] && k.current == k.initproc && Lined(k, [e])
    modifies k, k.pids, k.tasks.Keys
    ensures k.Valid() && k.steps == old(k.steps) && |k.ready| == 1 && k.current == old(k.current)
    ensures child != k.initproc.pid && Lined(k, [Entry(child, 0, 16), e])
    ensures forall t :: t in k.tasks ==> t in old(k.tasks) || fresh(t)
  {
    hide Kernel.Sane, Entries, Born;
    FirstProcess(k);
    child := k.Fork();
    QueueFacts(k);
  }

  /** The only task yields and is fetched again. */
  method TurnAlone(k: Kernel, ghost e: Entry)
    requires k.Valid() && k.steps < STEP_LIMIT && k.ready == [] && Lined(k, [e]) && e.priority >= 2
    modifies k, k.tasks.Keys
    ensures k.Valid() && k.steps == old(k.steps) + 1 && k.tasks.Keys == old(k.tasks).Keys
    ensures k.ready == [] && k.current == old(k.current) && Lined(k, [Charged(e)])
  {
    hide Kernel.Sane, Round, Runnable, Charged, Entries;
    RoundOfOne(e);
    k.Yield();
    QueueFacts(k);
  }

  /** A turn with two tasks in line. */
  method Turn(k: Kernel, ghost a: Entry, ghost b: Entry)
    requires k.Valid() && k.steps < STEP_LIMIT && Lined(k, [a, b]) && a.priority >= 2 && b.priority >= 2
    modifies k, k.tasks.Keys
    ensures k.Valid() && k.steps == old(k.steps) + 1 && k.tasks.Keys == old(k.tasks).Keys && |k.ready| == 1
    ensures Lined(k, if b.stride < a.stride then [a, Charged(b)] else [b, Charged(a)])
  {
    hide Kernel.Sane, Round, Runnable, Charged, FetchedFrom, Entries;
    RoundOfTwo(a, b);
    k.Yield();
    QueueFacts(k);
  }

  /** The running one of two tasks takes another priority. */
  method Raise(k: Kernel, prio: nat, ghost a: Entry, ghost b: Entry)
    requires k.Valid() && |k.ready| == 1 && Lined(k, [a, b]) && prio >= 2
    modifies k`tasks, k.tasks.Keys
    ensures k.Valid() && k.tasks.Keys == old(k.tasks).Keys && Lined(k, [a, b.(priority := prio)])
  {
    hide Kernel.Sane, Entries;
    var r := k.SetPriority(prio);
    QueueFacts(k);
  }

  /**
   The first process forks, and its child takes a priority above BIG_STRIDE. Two turns later the
   first process is never fetched again, however often the child yields.
   */
  method Starvation() returns (k: Kernel, child: nat)
    ensures k.Valid() && child != k.initproc.pid
    ensures Lined(k, [Entry(k.initproc.pid, 2 * TURN, 16), Entry(child, TURN, BIG_STRIDE + 1)])
    ensures Runnable(k.Queue()) && forall n: nat :: Fetched(Rounds(k.Queue(), n)) != k.initproc.pid
  {
    hide Kernel.Sane, Runnable, Rounds, FirstMin, Entries;
    k := Boot();
    QueueFacts(k);
    ghost var init := k.initproc.pid;
    child := Child(k, Entry(init, TURN, 16));
    Turn(k, Entry(child, 0, 16), Entry(init, TURN, 16));
    Raise(k, BIG_STRIDE + 1, Entry(init, TURN, 16), Entry(child, TURN, 16));
    Turn(k, Entry(init, TURN, 16), Entry(child, TURN, BIG_STRIDE + 1));
    Turn(k, Entry(child, TURN, BIG_STRIDE + 1), Entry(init, 2 * TURN, 16));
    QueueFacts(k);
    forall n: nat ensures Fetched(Rounds(k.Queue(), n)) != init {
      StarvedPair(Entry(init, 2 * TURN, 16), Entry(child, TURN, BIG_STRIDE + 1), n);
    }
  }

  /** A process that has had nine turns on its own forks: the strides are then further apart than the bound. */
  method LateFork() returns (k: Kernel, child: nat)
    ensures k.Valid() && k.current == k.initproc && !k.Balanced()
    ensures Lined(k, [Entry(child, 0, 16), Entry(k.initproc.pid, 9 * TURN, 16)]) && 9 * TURN > HALF
  {
    hide Kernel.Sane, Round, Runnable, Entries, FetchedFrom;
    k := Boot();
    QueueFacts(k);
    var turns := 1;
    while turns < 9
      invariant 1 <= turns <= 9 && k.Valid() && k.steps == turns && k.current == k.initproc && k.ready == []
      invariant Lined(k, [Entry(k.initproc.pid, turns * TURN, 16)])
      invariant forall t :: t in k.tasks ==> fresh(t)
    {
      TurnAlone(k, Entry(k.initproc.pid, turns * TURN, 16));
      turns := turns + 1;
    }
    child := Child(k, Entry(k.initproc.pid, 9 * TURN, 16));
    assert k.Queue()[1].stride > k.Queue()[0].stride + HALF;
  }
}
