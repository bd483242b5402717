/** Laws of a process's memory, address by address: what is stored is what is loaded, and which addresses exist. */
module MemoryLaws {
  import opened Pages
  import opened PrivateMemories

  // Two addresses name the same word of memory.
  ghost predicate SameWord(va: nat, vb: nat) {
    Key(Floor(va)) == Key(Floor(vb)) && PageOffset(va) == PageOffset(vb)
  }

  // Aligned addresses of a page have words of their own.
  lemma WordsApart(va: nat, vb: nat)
    requires va % 8 == 0 && vb % 8 == 0
    ensures Word(va) == Word(vb) <==> PageOffset(va) == PageOffset(vb)
    ensures 8 * Word(va) == PageOffset(va)
  {
    assert PageOffset(va) % 8 == 0 && PageOffset(vb) % 8 == 0;
  }

  /** The memory law: a load after a store sees the word stored if it names that word, and else what it saw before. */
  lemma LoadAfterStore(st: Processes, pid: nat, va: nat, word: nat, q: nat, vb: nat)
    requires Enabled(st, Store(pid, va, word)) && Enabled(st, Load(q, vb))
    ensures Enabled(Step(st, Store(pid, va, word)), Load(q, vb))
    ensures Answer(Step(st, Store(pid, va, word)), Load(q, vb)) ==
            if q == pid && SameWord(va, vb) then word else Answer(st, Load(q, vb))
  {
    hide Key, Floor, Word, PageOffset;
    WordsApart(va, vb);
  }

  // The operation leaves the word of pid at va alone.
  ghost predicate Spares(st: Processes, op: Op, pid: nat, va: nat)
    requires LiveAt(st, pid)
  {
    match op
    case Store(q, vb, _) => q != pid || !SameWord(va, vb)
    case Remove(q, s, e) => q == pid && 0 < e ==> Key(Floor(va)) in Removed(st[pid], Floor(s), Ceil(e)).pages
    case Exit(q) => q != pid
    case Reap(q) => q != pid
    case _ => true
  }

  lemma SparedStep(st: Processes, op: Op, pid: nat, va: nat)
    requires Enabled(st, op) && Enabled(st, Load(pid, va)) && Spares(st, op, pid, va)
    ensures Enabled(Step(st, op), Load(pid, va)) && Answer(Step(st, op), Load(pid, va)) == Answer(st, Load(pid, va))
  {
    hide Key, Floor, Ceil, Word, PageOffset;
    match op
    case Store(q, vb, word) => LoadAfterStore(st, q, vb, word, pid, va);
    case Insert(q, s, e, perm) =>
      if q == pid && Vacant(st[pid].pages, Floor(s), Ceil(e)) {
        KeptByInsertion(st[pid], Floor(s), Ceil(e), perm, Key(Floor(va)));
      }
    case _ =>
  }

  lemma KeptByInsertion(p: Process, lo: nat, hi: nat, perm: nat, k: nat)
    requires p.Live? && k in p.pages && Vacant(p.pages, lo, hi)
    ensures Inserted(p, lo, hi, perm).Live? && k in Inserted(p, lo, hi, perm).pages
    ensures Inserted(p, lo, hi, perm).pages[k] == p.pages[k]
  {
    hide Key;
    assert !InRange(lo, hi, k);
  }

  ghost predicate SparedBy(st: Processes, ops: seq<Op>, pid: nat, va: nat)
    requires EnabledRun(st, ops)
    decreases |ops|
  {
    ops != [] ==> LiveAt(st, pid) && Spares(st, ops[0], pid, va) && SparedBy(Step(st, ops[0]), ops[1..], pid, va)
  }

  lemma {:induction false} SparedRun(st: Processes, ops: seq<Op>, pid: nat, va: nat)
    requires EnabledRun(st, ops) && SparedBy(st, ops, pid, va) && Enabled(st, Load(pid, va))
    ensures Enabled(After(st, ops), Load(pid, va))
    ensures Answer(After(st, ops), Load(pid, va)) == Answer(st, Load(pid, va))
    decreases |ops|
  {
    hide Step, Enabled, Spares, Answer;
    if ops != [] {
      SparedStep(st, ops[0], pid, va);
      SparedRun(Step(st, ops[0]), ops[1..], pid, va);
    }
  }

  lemma {:induction false} AnswerAfter(st: Processes, ops: seq<Op>, op: Op)
    requires EnabledRun(st, ops + [op])
    ensures EnabledRun(st, ops) && Enabled(After(st, ops), op) && |Answers(st, ops + [op])| == |ops| + 1
    ensures Answers(st, ops + [op])[|ops|] == Answer(After(st, ops), op)
    decreases |ops|
  {
    hide Step, Enabled, Answer;
    var all := ops + [op];
    if ops == [] {
      assert all == [op] && all[1..] == [];
    } else {
      assert all[0] == ops[0] && all[1..] == ops[1..] + [op];
      AnswerAfter(Step(st, ops[0]), ops[1..], op);
    }
  }

  /**
   Store, then any run of any processes that spares the word, then load: the answer is what was stored. World.Run
   gives these answers over the shared frames.
   */
  lemma LoadBack(st: Processes, pid: nat, va: nat, word: nat, ops: seq<Op>)
    requires EnabledRun(st, [Store(pid, va, word)] + ops + [Load(pid, va)])
    requires Enabled(st, Store(pid, va, word)) && EnabledRun(Step(st, Store(pid, va, word)), ops)
    requires SparedBy(Step(st, Store(pid, va, word)), ops, pid, va)
    ensures var run := [Store(pid, va, word)] + ops + [Load(pid, va)];
            |Answers(st, run)| == |run| && Answers(st, run)[|run| - 1] == word
  {
    var first, last := Store(pid, va, word), Load(pid, va);
    var st1, before := Step(st, first), [first] + ops;
    assert Enabled(st, last);
    LoadAfterStore(st, pid, va, word, pid, va);
    hide Step, Enabled, Answer, SparedBy;
    assert before[0] == first && before[1..] == ops;
    AnswerAfter(st, before, last);
    assert After(st, before) == After(st1, ops);
    SparedRun(st1, ops, pid, va);
  }

  // ----- which addresses exist

  /** After an insertion that is not refused every address of the range is there, zeroed; every new page holds one. */
  lemma InsertedRange(p: Process, startVa: nat, endVa: nat, perm: nat)
    requires p.Live? && startVa < endVa && Vacant(p.pages, Floor(startVa), Ceil(endVa))
    ensures var q := Inserted(p, Floor(startVa), Ceil(endVa), perm);
            && q.Live?
            && (forall va: nat :: startVa <= va < endVa ==>
                  Key(Floor(va)) in q.pages && q.pages[Key(Floor(va))] == Page(ZeroFrame(), perm + V))
            && (forall k :: k in p.pages ==> k in q.pages && q.pages[k] == p.pages[k])
            && (forall k :: k in q.pages && k !in p.pages ==> exists va: nat :: startVa <= va < endVa && Key(Floor(va)) == k)
  {
    var lo, hi := Floor(startVa), Ceil(endVa);
    var q := Inserted(p, lo, hi, perm);
    RangePages(startVa, endVa);
    hide Floor, Ceil;
    forall va: nat | startVa <= va < endVa
      ensures Key(Floor(va)) in q.pages && q.pages[Key(Floor(va))] == Page(ZeroFrame(), perm + V)
    {
      assert InRange(lo, hi, Key(Floor(va)));
    }
    hide Key;
    forall k | k in p.pages ensures k in q.pages && q.pages[k] == p.pages[k] { KeptByInsertion(p, lo, hi, perm, k); }
    forall k | k in q.pages && k !in p.pages ensures exists va: nat :: startVa <= va < endVa && Key(Floor(va)) == k {
      var v: nat :| lo <= v < hi && Key(v) == k;
      assert HoldsSome(startVa, endVa, v);
    }
  }

  /** After a removal that answers 0 no address of the range is there, and every page that is gone held one of them. */
  lemma RemovedRange(p: Process, startVa: nat, endVa: nat)
    requires p.Live? && startVa < endVa
    ensures var q := Removed(p, Floor(startVa), Ceil(endVa));
            && q.Live?
            && (forall k :: k in q.pages ==> k in p.pages && q.pages[k] == p.pages[k])
            && (forall k :: k in p.pages && k !in q.pages ==> exists va: nat :: startVa <= va < endVa && Key(Floor(va)) == k)
            && (RemoveAnswer(p, Floor(startVa), Ceil(endVa)) == 0 ==>
                  forall va: nat :: startVa <= va < endVa ==> Key(Floor(va)) !in q.pages)
  {
    var lo, hi := Floor(startVa), Ceil(endVa);
    var q := Removed(p, lo, hi);
    RangePages(startVa, endVa);
    hide Floor, Ceil;
    var i := FirstIn(p.regions, lo, hi);
    if i < |p.regions| {
      var r := p.regions[i];
      forall va: nat | startVa <= va < endVa && r.lo <= Floor(va) < r.hi ensures Key(Floor(va)) !in q.pages {
        assert InRange(r.lo, r.hi, Key(Floor(va)));
      }
      hide Key;
      forall k | k in p.pages && k !in q.pages ensures exists va: nat :: startVa <= va < endVa && Key(Floor(va)) == k {
        var v: nat :| r.lo <= v < r.hi && Key(v) == k;
        assert HoldsSome(startVa, endVa, v);
      }
    }
  }
}
