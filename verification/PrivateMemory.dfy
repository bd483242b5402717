/** What processes may rely on: each has a memory of its own. No frames, tables or allocator here. */
module PrivateMemories {
  import opened Pages
  import opened Spaces
  import opened Forks

  datatype Page = Page(words: Frame, flags: nat)
  datatype Region = Region(lo: nat, hi: nat, perm: nat)

  // A zombie has lost its pages and waits for its parent.
  datatype Process = Live(regions: seq<Region>, pages: map<nat, Page>) | Zombie

  type Processes = map<nat, Process>

  datatype Op =
    | New(pid: nat)
    | Insert(pid: nat, startVa: nat, endVa: nat, perm: nat)
    | Remove(pid: nat, startVa: nat, endVa: nat)
    | Store(pid: nat, va: nat, word: nat)
    | Load(pid: nat, va: nat)
    | Fork(pid: nat, child: nat)
    | Exit(pid: nat)
    | Reap(pid: nat)

  // The key of the trampoline, which every process has mapped from the start.
  ghost function Reserved(): nat { Key(TRAMPOLINE_VPN) }

  ghost predicate LiveAt(st: Processes, pid: nat) { pid in st && st[pid].Live? }

  ghost predicate InRange(lo: nat, hi: nat, k: nat) {
    exists v: nat :: lo <= v < hi && Key(v) == k
  }

  ghost function KeysOf(lo: nat, hi: nat): set<nat> {
    set k: nat | 0 <= k < KEY_LIMIT && InRange(lo, hi, k)
  }

  ghost function Zeroed(lo: nat, hi: nat, perm: nat): map<nat, Page> {
    map k: nat | 0 <= k < KEY_LIMIT && InRange(lo, hi, k) :: Page(ZeroFrame(), perm + V)
  }

  ghost predicate Taken(pages: map<nat, Page>, k: nat) { k in pages || k == Reserved() }

  ghost predicate Vacant(pages: map<nat, Page>, lo: nat, hi: nat) {
    forall v: nat :: lo <= v < hi ==> !Taken(pages, Key(v))
  }

  // The first region that lies inside [lo, hi), or the number of regions.
  ghost function FirstIn(regions: seq<Region>, lo: nat, hi: nat): (r: nat)
    ensures r <= |regions|
    ensures forall j :: 0 <= j < r ==> !(lo <= regions[j].lo && regions[j].hi <= hi)
    ensures r < |regions| ==> lo <= regions[r].lo && regions[r].hi <= hi
  {
    if regions == [] || (lo <= regions[0].lo && regions[0].hi <= hi) then 0 else 1 + FirstIn(regions[1..], lo, hi)
  }

  ghost function Inserted(p: Process, lo: nat, hi: nat, perm: nat): Process
    requires p.Live?
  {
    if Vacant(p.pages, lo, hi) then Live(p.regions + [Region(lo, hi, perm)], p.pages + Zeroed(lo, hi, perm)) else p
  }

  ghost function Removed(p: Process, lo: nat, hi: nat): Process
    requires p.Live?
  {
    var i := FirstIn(p.regions, lo, hi);
    if i == |p.regions| then p
    else Live(p.regions[..i] + p.regions[i + 1..], p.pages - KeysOf(p.regions[i].lo, p.regions[i].hi))
  }

  ghost function Word(va: nat): (i: nat) ensures i < 512 { PageOffset(va) / 8 }

  ghost function Poked(pages: map<nat, Page>, k: nat, i: nat, w: nat): map<nat, Page>
    requires k in pages && i < 512
  {
    pages[k := pages[k].(words := pages[k].words[i := w])]
  }

  ghost function Stored(p: Process, va: nat, w: nat): Process
    requires p.Live? && Key(Floor(va)) in p.pages
  {
    p.(pages := Poked(p.pages, Key(Floor(va)), Word(va), w))
  }

  // What every insertion asks.
  ghost predicate Asked(st: Processes, pid: nat, s: nat, e: nat, perm: nat) {
    LiveAt(st, pid) && PermOk(perm) && 0 < e && Floor(s) <= Ceil(e) <= Floor(s) + KEY_LIMIT
  }

  // The range is free, or its very first page is not.
  ghost predicate Clean(pages: map<nat, Page>, lo: nat, hi: nat) {
    Vacant(pages, lo, hi) || Taken(pages, Key(lo))
  }

  // What an operation asks of its caller. An insertion into an occupied range must be refused at its first page.
  ghost predicate Enabled(st: Processes, op: Op) {
    match op
    case New(pid) => pid !in st
    case Insert(pid, s, e, perm) => Asked(st, pid, s, e, perm) && Clean(st[pid].pages, Floor(s), Ceil(e))
    case Remove(pid, s, e) => LiveAt(st, pid) && 0 < e && Floor(s) <= Ceil(e)
    case Store(pid, va, _) => LiveAt(st, pid) && va % 8 == 0 && Key(Floor(va)) in st[pid].pages
    case Load(pid, va) => LiveAt(st, pid) && va % 8 == 0 && Key(Floor(va)) in st[pid].pages
    case Fork(pid, child) => LiveAt(st, pid) && child !in st
    case Exit(pid) => LiveAt(st, pid)
    case Reap(pid) => pid in st && st[pid].Zombie?
  }

  ghost function Step(st: Processes, op: Op): Processes
    requires Enabled(st, op)
  {
    match op
    case New(pid) => st[pid := Live([], map[])]
    case Insert(pid, s, e, perm) => st[pid := Inserted(st[pid], Floor(s), Ceil(e), perm)]
    case Remove(pid, s, e) => st[pid := Removed(st[pid], Floor(s), Ceil(e))]
    case Store(pid, va, w) => st[pid := Stored(st[pid], va, w)]
    case Load(pid, va) => st
    case Fork(pid, child) => st[child := st[pid]]
    case Exit(pid) => st[pid := Zombie]
    case Reap(pid) => st - {pid}
  }

  // Zero if the region removed has as many pages as the range asked for; none removed counts as zero pages.
  ghost function RemoveAnswer(p: Process, lo: nat, hi: nat): int
    requires p.Live?
  {
    var i := FirstIn(p.regions, lo, hi);
    var len := if i == |p.regions| then 0 else p.regions[i].hi - p.regions[i].lo;
    if len == hi - lo then 0 else -1
  }

  // What the caller gets back.
  ghost function Answer(st: Processes, op: Op): int
    requires Enabled(st, op)
  {
    match op
    case Insert(pid, s, e, _) => if Vacant(st[pid].pages, Floor(s), Ceil(e)) then 0 else -1
    case Remove(pid, s, e) => RemoveAnswer(st[pid], Floor(s), Ceil(e))
    case Load(pid, va) => st[pid].pages[Key(Floor(va))].words[Word(va)]
    case _ => 0
  }

  ghost predicate EnabledRun(st: Processes, ops: seq<Op>)
    decreases |ops|
  {
    ops == [] || (Enabled(st, ops[0]) && EnabledRun(Step(st, ops[0]), ops[1..]))
  }

  ghost function After(st: Processes, ops: seq<Op>): Processes
    requires EnabledRun(st, ops)
    decreases |ops|
  {
    if ops == [] then st else After(Step(st, ops[0]), ops[1..])
  }

  ghost function Answers(st: Processes, ops: seq<Op>): seq<int>
    requires EnabledRun(st, ops)
    decreases |ops|
  {
    if ops == [] then [] else [Answer(st, ops[0])] + Answers(Step(st, ops[0]), ops[1..])
  }

  lemma Unfold(st: Processes, ops: seq<Op>, i: nat)
    requires i < |ops| && EnabledRun(st, ops[i..])
    ensures Enabled(st, ops[i]) && EnabledRun(Step(st, ops[i]), ops[i + 1..])
    ensures After(st, ops[i..]) == After(Step(st, ops[i]), ops[i + 1..])
    ensures Answers(st, ops[i..]) == [Answer(st, ops[i])] + Answers(Step(st, ops[i]), ops[i + 1..])
  {
    hide Enabled, Step, Answer;
    assert ops[i..][0] == ops[i] && ops[i..][1..] == ops[i + 1..];
  }

  lemma Finished(st: Processes, ops: seq<Op>)
    requires ops == []
    ensures EnabledRun(st, ops) && After(st, ops) == st && Answers(st, ops) == []
  {
  }

  // The processes whose memory an operation changes.
  ghost function Touches(op: Op): set<nat> {
    match op
    case Fork(_, child) => {child}
    case Load(_, _) => {}
    case _ => {op.pid}
  }

  /** Whatever the others do, for however long, a process finds its memory as it left it. */
  lemma {:induction false} Untouched(st: Processes, ops: seq<Op>, pid: nat)
    requires EnabledRun(st, ops) && pid in st
    requires forall i :: 0 <= i < |ops| ==> pid !in Touches(ops[i])
    ensures pid in After(st, ops) && After(st, ops)[pid] == st[pid]
    decreases |ops|
  {
    if ops != [] {
      assert pid !in Touches(ops[0]);
      assert forall i :: 0 <= i < |ops[1..]| ==> ops[1..][i] == ops[i + 1];
      Untouched(Step(st, ops[0]), ops[1..], pid);
    }
  }

  // ----- each process as if it were alone

  // Operations of pid on its own memory.
  ghost predicate OwnOp(op: Op, pid: nat) {
    op.pid == pid && !op.New? && !op.Fork? && !op.Reap?
  }

  ghost function OwnOps(ops: seq<Op>, pid: nat): seq<Op> {
    if ops == [] then []
    else (if OwnOp(ops[0], pid) then [ops[0]] else []) + OwnOps(ops[1..], pid)
  }

  // The answers that pid's own operations got.
  ghost function OwnAnswers(ops: seq<Op>, answers: seq<int>, pid: nat): seq<int>
    requires |ops| == |answers|
    decreases |ops|
  {
    if ops == [] then []
    else (if OwnOp(ops[0], pid) then [answers[0]] else []) + OwnAnswers(ops[1..], answers[1..], pid)
  }

  // Two systems in which pid is in the same state.
  ghost predicate Alike(st: Processes, alone: Processes, pid: nat) {
    pid in st && pid in alone && st[pid] == alone[pid]
  }

  // An operation of pid needs, does and answers the same in both.
  lemma OwnStep(st: Processes, alone: Processes, op: Op, pid: nat)
    requires Enabled(st, op) && Alike(st, alone, pid) && OwnOp(op, pid)
    ensures Enabled(alone, op) && Answer(alone, op) == Answer(st, op)
    ensures Alike(Step(st, op), Step(alone, op), pid)
  {
  }

  lemma OtherStep(st: Processes, alone: Processes, op: Op, pid: nat)
    requires Enabled(st, op) && Alike(st, alone, pid) && !OwnOp(op, pid) && op != Reap(pid)
    ensures Alike(Step(st, op), alone, pid)
  {
  }

  /**
   In any run a process that is not reaped has the memory, and gets the answers, of a run of its
   own operations alone: in any system where it starts in the same state, with or without others.
   */
  lemma {:induction false} AsIfAlone(st: Processes, alone: Processes, ops: seq<Op>, pid: nat)
    requires EnabledRun(st, ops) && Alike(st, alone, pid) && Reap(pid) !in ops
    ensures |Answers(st, ops)| == |ops| && EnabledRun(alone, OwnOps(ops, pid))
    ensures Alike(After(st, ops), After(alone, OwnOps(ops, pid)), pid)
    ensures OwnAnswers(ops, Answers(st, ops), pid) == Answers(alone, OwnOps(ops, pid))
    decreases |ops|
  {
    hide Step, Enabled, Answer, OwnOp;
    if ops != [] {
      var op, rest := ops[0], ops[1..];
      assert ops == [op] + rest;
      var own := OwnOps(rest, pid);
      assert Answers(st, ops)[1..] == Answers(Step(st, op), rest);
      if OwnOp(op, pid) {
        OwnStep(st, alone, op, pid);
        AsIfAlone(Step(st, op), Step(alone, op), rest, pid);
        assert OwnOps(ops, pid) == [op] + own && ([op] + own)[1..] == own;
      } else {
        OtherStep(st, alone, op, pid);
        AsIfAlone(Step(st, op), alone, rest, pid);
        assert OwnOps(ops, pid) == own;
      }
    }
  }

  /**
   After a fork, whatever both do and in whatever order, parent and child each have the memory of
   a process alone that starts with the parent's memory of that moment.
   */
  lemma ForkIsPrivate(st: Processes, pid: nat, child: nat, ops: seq<Op>)
    requires Enabled(st, Fork(pid, child)) && EnabledRun(Step(st, Fork(pid, child)), ops)
    requires Reap(pid) !in ops && Reap(child) !in ops
    ensures var st', parent, copy := After(Step(st, Fork(pid, child)), ops), map[pid := st[pid]], map[child := st[pid]];
            && EnabledRun(parent, OwnOps(ops, pid)) && Alike(st', After(parent, OwnOps(ops, pid)), pid)
            && EnabledRun(copy, OwnOps(ops, child)) && Alike(st', After(copy, OwnOps(ops, child)), child)
  {
    var st1 := Step(st, Fork(pid, child));
    AsIfAlone(st1, map[pid := st[pid]], ops, pid);
    AsIfAlone(st1, map[child := st[pid]], ops, child);
  }
}
