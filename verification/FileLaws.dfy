/** Laws of files over whole runs, byte by byte: what is written is what is read, until something else is written. */
module FileLaws {
  import opened Basics
  import opened Bytes
  import opened Files
  import opened Geometries
  import opened Directories
  import opened FsSpec
  import opened DirSpec
  import opened FsRuns

  // ----- one operation

  /** A write puts its bytes where it says, leaves the rest of the file, fills a gap with zeros, and changes no other file. */
  lemma WriteMeaning(cs: Contents, k: nat, offset: nat, buf: seq<byte>)
    requires SpecInv(cs) && Callable(cs, Write(k, offset, buf))
    ensures var cs' := Step(cs, Write(k, offset, buf));
            && |cs'| == |cs| && (forall j :: 0 <= j < |cs| && j != k ==> cs'[j] == cs[j])
            && |cs'[k]| == (if offset + |buf| <= |cs[k]| then |cs[k]| else offset + |buf|)
            && forall i :: 0 <= i < |cs'[k]| ==>
                 cs'[k][i] == if offset <= i < offset + |buf| then buf[i - offset] else if i < |cs[k]| then cs[k][i] else 0
  {
    hide DirOk, Listed;
    var c, w := cs[k], Written(cs[k], offset, buf);
    forall i | 0 <= i < |w|
      ensures w[i] == if offset <= i < offset + |buf| then buf[i - offset] else if i < |c| then c[i] else 0
    {
      assert Extended(c, offset + |buf|)[i] == if i < |c| then c[i] else 0;
    }
  }

  /** Clearing empties one file and changes no other. */
  lemma ClearMeaning(cs: Contents, k: nat)
    requires SpecInv(cs) && Callable(cs, Clear(k))
    ensures var cs' := Step(cs, Clear(k));
            |cs'| == |cs| && |cs'[k]| == 0 && forall j :: 0 <= j < |cs| && j != k ==> cs'[j] == cs[j]
  {
    hide DirOk, Listed;
  }

  /** A read answers the bytes from its offset on, as many as it has room for and the file has. */
  lemma ReadMeaning(cs: Contents, k: nat, offset: nat, len: nat)
    requires 0 < |cs| && k < |cs|
    ensures var a := AnswerOf(cs, Op.Read(k, offset, len));
            && a.Data?
            && |a.bytes| == (if offset >= |cs[k]| then 0 else if len <= |cs[k]| - offset then len else |cs[k]| - offset)
            && forall i :: 0 <= i < |a.bytes| ==> a.bytes[i] == cs[k][offset + i]
  {
    ReadSliceMeans(cs[k], offset, len);
  }

  /** What creations, lookups and link counts answer, in terms of the finite map of names. */
  lemma NameAnswers(cs: Contents, name: Name, k: nat)
    requires SpecInv(cs) && name != [] && 0 < k
    ensures var b := Bindings(Entries(cs[0]));
            && AnswerOf(cs, Create(name)) == Node(if name in b then None else Some(|cs|))
            && AnswerOf(cs, Find(name)) == Node(if name in b then Some(b[name]) else None)
            && AnswerOf(cs, GetNlink(k)) == Number(|set n | n in b && b[n] == k|)
  {
    hide Entries, DirOk, Bindings, Lookup, Nlink;
    LookupIsBinding(Entries(cs[0]), name);
    NlinkCountsNames(Entries(cs[0]), |cs|, k);
  }

  /** A read of what was just written answers what was written. */
  lemma ReadOfWritten(cs: Contents, k: nat, offset: nat, buf: seq<byte>)
    requires SpecInv(cs) && Callable(cs, Write(k, offset, buf))
    ensures AnswerOf(Step(cs, Write(k, offset, buf)), Op.Read(k, offset, |buf|)) == Data(buf)
  {
    var cs' := Step(cs, Write(k, offset, buf));
    WriteMeaning(cs, k, offset, buf);
    ReadMeaning(cs', k, offset, |buf|);
    hide Step;
    assert AnswerOf(cs', Op.Read(k, offset, |buf|)).bytes == buf;
  }

  // ----- runs

  // The operation does not change file k.
  ghost predicate Spares(cs: Contents, op: Op, k: nat)
    requires 0 < |cs|
  {
    match op
    case Write(j, _, _) => j != k
    case Clear(j) => j != k
    case Unlink(name) => Lookup(Entries(cs[0]), name) != Some(k)
    case _ => true
  }

  ghost predicate SparedBy(g: Geometry, cs: Contents, ops: seq<Op>, k: nat)
    requires SpecInv(cs) && EnabledRun(g, cs, ops)
    decreases |ops|
  {
    ops != [] ==> Spares(cs, ops[0], k) && SparedBy(g, Step(cs, ops[0]), ops[1..], k)
  }

  /** What an operation spares, it keeps. */
  lemma SparedStep(cs: Contents, op: Op, k: nat)
    requires SpecInv(cs) && Callable(cs, op) && Spares(cs, op, k) && 0 < k < |cs|
    ensures k < |Step(cs, op)| && Step(cs, op)[k] == cs[k]
  {
    hide DirOk, Listed, Entries, Blanked, EncodeDirent, Nlink, Lookup;
  }

  /** So does a run. */
  lemma {:induction false} SparedRun(g: Geometry, cs: Contents, ops: seq<Op>, k: nat)
    requires SpecInv(cs) && EnabledRun(g, cs, ops) && SparedBy(g, cs, ops, k) && 0 < k < |cs|
    ensures k < |RunOf(g, cs, ops)| && RunOf(g, cs, ops)[k] == cs[k]
    decreases |ops|
  {
    hide Step, DirOk, Listed, Spares;
    if ops != [] {
      SparedStep(cs, ops[0], k);
      SparedRun(g, Step(cs, ops[0]), ops[1..], k);
    }
  }

  // The answer to an operation after a run.
  lemma {:induction false} AnswerAfter(g: Geometry, cs: Contents, ops: seq<Op>, op: Op)
    requires SpecInv(cs) && EnabledRun(g, cs, ops + [op])
    ensures EnabledRun(g, cs, ops) && |Answers(g, cs, ops + [op])| == |ops| + 1
    ensures SpecInv(RunOf(g, cs, ops)) && Callable(RunOf(g, cs, ops), op)
    ensures Answers(g, cs, ops + [op])[|ops|] == AnswerOf(RunOf(g, cs, ops), op)
    decreases |ops|
  {
    hide Step, DirOk, Listed, AnswerOf, Room;
    var all := ops + [op];
    if ops == [] {
      assert all == [op] && all[1..] == [];
    } else {
      assert all[0] == ops[0] && all[1..] == ops[1..] + [op];
      AnswerAfter(g, Step(cs, ops[0]), ops[1..], op);
    }
  }

  /**
   Write, then any run that spares the file, then read the same range: the answer is what was written. FsRuns.Run
   gives these answers on disk blocks.
   */
  lemma ReadBack(g: Geometry, cs: Contents, k: nat, offset: nat, buf: seq<byte>, ops: seq<Op>)
    requires SpecInv(cs)
    requires EnabledRun(g, cs, [Write(k, offset, buf)] + ops + [Op.Read(k, offset, |buf|)])
    requires Enabled(g, cs, Write(k, offset, buf)) && EnabledRun(g, Step(cs, Write(k, offset, buf)), ops)
    requires SparedBy(g, Step(cs, Write(k, offset, buf)), ops, k)
    ensures var run := [Write(k, offset, buf)] + ops + [Op.Read(k, offset, |buf|)];
            |Answers(g, cs, run)| == |run| && Answers(g, cs, run)[|run| - 1] == Data(buf)
  {
    hide Step, DirOk, Listed, AnswerOf, Room, SparedBy;
    var first, last := Write(k, offset, buf), Op.Read(k, offset, |buf|);
    var cs1, before := Step(cs, first), [first] + ops;
    assert before[0] == first && before[1..] == ops;
    AnswerAfter(g, cs, before, last);
    assert RunOf(g, cs, before) == RunOf(g, cs1, ops);
    SparedRun(g, cs1, ops, k);
    ReadOfWritten(cs, k, offset, buf);
    SameAnswer(cs1, RunOf(g, cs1, ops), last);
  }

  // A read depends on its file alone.
  lemma SameAnswer(cs: Contents, cs': Contents, op: Op)
    requires 0 < |cs| && 0 < |cs'| && op.Read? && op.k < |cs| && op.k < |cs'| && cs[op.k] == cs'[op.k]
    ensures AnswerOf(cs, op) == AnswerOf(cs', op)
  {
  }
}
