/** The stride scheduler as a round on the queue: how far strides spread, who gets how much, who waits how long. */
module Strides {

  const BIG_STRIDE := 88888888
  const HALF := 44444444

  datatype Entry = Entry(pid: nat, stride: nat, priority: nat)

  // What one turn costs a task. Priorities above BIG_STRIDE cost nothing.
  function Pass(e: Entry): nat
    requires e.priority > 0
  {
    BIG_STRIDE / e.priority
  }

  function Charged(e: Entry): Entry
    requires e.priority > 0
  {
    e.(stride := e.stride + Pass(e))
  }

  ghost predicate Runnable(q: seq<Entry>) {
    q != [] && forall i :: 0 <= i < |q| ==> q[i].priority >= 2
  }

  ghost predicate UniquePids(q: seq<Entry>) {
    forall i, j :: 0 <= i < j < |q| ==> q[i].pid != q[j].pid
  }

  // The first task of the queue with the least stride.
  function FirstMin(q: seq<Entry>): (i: nat)
    requires q != []
    ensures i < |q|
    ensures forall j :: 0 <= j < |q| ==> q[i].stride <= q[j].stride
    ensures forall j :: 0 <= j < i ==> q[i].stride < q[j].stride
  {
    if |q| == 1 then 0
    else
      var n := |q| - 1;
      var i := FirstMin(q[..n]);
      if q[n].stride < q[i].stride then n else i
  }

  // One round: the task fetched is charged, runs, yields and goes to the back.
  function Round(q: seq<Entry>): (r: seq<Entry>)
    requires Runnable(q)
    ensures Runnable(r) && |r| == |q|
  {
    var i := FirstMin(q);
    q[..i] + q[i + 1..] + [Charged(q[i])]
  }

  function Fetched(q: seq<Entry>): nat
    requires q != []
  {
    q[FirstMin(q)].pid
  }

  function Rounds(q: seq<Entry>, k: nat): (r: seq<Entry>)
    requires Runnable(q)
    ensures Runnable(r) && |r| == |q|
  {
    if k == 0 then q else Round(Rounds(q, k - 1))
  }

  // How often pid is fetched in the first k rounds.
  function Turns(q: seq<Entry>, k: nat, pid: nat): nat
    requires Runnable(q)
  {
    if k == 0 then 0 else Turns(q, k - 1, pid) + if Fetched(Rounds(q, k - 1)) == pid then 1 else 0
  }

  // ----- the spread of strides

  ghost predicate Spread(q: seq<Entry>) {
    forall i, j :: 0 <= i < |q| && 0 <= j < |q| ==> q[i].stride <= q[j].stride + HALF
  }

  lemma PassBound(e: Entry)
    requires e.priority >= 2
    ensures Pass(e) <= HALF
    ensures Pass(e) == 0 <==> e.priority > BIG_STRIDE
  {
    Divided(BIG_STRIDE, e.priority);
    Times(Pass(e), 2, e.priority);
    if Pass(e) >= 1 { Times(e.priority, 1, Pass(e)); }
  }

  lemma Divided(b: nat, n: nat)
    requires n > 0
    ensures n * (b / n) <= b < n * (b / n) + n
  {
  }

  lemma Times(p: nat, a: nat, b: nat)
    requires a <= b
    ensures p * a <= p * b
  {
  }

  /** A round keeps the spread of strides within half of BIG_STRIDE. */
  lemma SpreadKept(q: seq<Entry>)
    requires Runnable(q) && Spread(q)
    ensures Spread(Round(q))
  {
    var i, r := FirstMin(q), Round(q);
    PassBound(q[i]);
    hide Pass;
    forall x | 0 <= x < |r| ensures q[i].stride <= r[x].stride <= q[i].stride + HALF {
      assert r[x] == if x < i then q[x] else if x < |q| - 1 then q[x + 1] else Charged(q[i]);
    }
  }

  lemma {:induction false} SpreadForever(q: seq<Entry>, k: nat)
    requires Runnable(q) && Spread(q)
    ensures Spread(Rounds(q, k))
  {
    if k > 0 {
      SpreadForever(q, k - 1);
      SpreadKept(Rounds(q, k - 1));
    }
  }

  /** A new task starts at stride zero: the spread survives its arrival exactly when no stride exceeds the bound. */
  lemma SpreadWithNew(q: seq<Entry>, e: Entry)
    requires Spread(q) && e.stride == 0
    ensures Spread(q + [e]) <==> forall i :: 0 <= i < |q| ==> q[i].stride <= HALF
  {
    var r := q + [e];
    assert r[|q|] == e && forall i :: 0 <= i < |q| ==> r[i] == q[i];
    if Spread(r) {
      forall i | 0 <= i < |q| ensures q[i].stride <= HALF { assert r[i].stride <= r[|q|].stride + HALF; }
    }
  }

  /** The same wherever in the queue the new task is put. */
  lemma SpreadWithNewAt(q: seq<Entry>, n: nat, e: Entry)
    requires Spread(q) && e.stride == 0 && n <= |q|
    ensures Spread(q[..n] + [e] + q[n..]) <==> forall i :: 0 <= i < |q| ==> q[i].stride <= HALF
  {
    var r, s := q[..n] + [e] + q[n..], q + [e];
    SpreadWithNew(q, e);
    assert forall i :: 0 <= i < |r| ==> r[i] == s[if i < n then i else if i == n then |q| else i - 1];
    forall i | 0 <= i < |s| ensures s[i] == r[if i < n then i else if i == |q| then n else i + 1] {}
  }

  lemma SpreadPrefix(q: seq<Entry>, n: nat)
    requires Spread(q) && n <= |q|
    ensures Spread(q[..n])
  {
  }

  // ----- where a task is after a round

  // The place of the task at x once another was fetched.
  function Moved(q: seq<Entry>, x: nat): nat
    requires q != [] && x < |q|
  {
    var i := FirstMin(q);
    if x < i then x else if x == i then |q| - 1 else x - 1
  }

  lemma MovedEntry(q: seq<Entry>, x: nat)
    requires Runnable(q) && x < |q|
    ensures Moved(q, x) < |q|
    ensures Round(q)[Moved(q, x)] == if x == FirstMin(q) then Charged(q[x]) else q[x]
  {
    hide Charged, FirstMin, Pass;
    Rotated(q, FirstMin(q), Charged(q[FirstMin(q)]), x);
  }

  lemma Rotated(q: seq<Entry>, i: nat, c: Entry, x: nat)
    requires i < |q| && x < |q|
    ensures var y := if x < i then x else if x == i then |q| - 1 else x - 1;
            (q[..i] + q[i + 1..] + [c])[y] == if x == i then c else q[x]
  {
  }

  function Place(q: seq<Entry>, k: nat, x: nat): (y: nat)
    requires Runnable(q) && x < |q|
    ensures y < |q|
  {
    if k == 0 then x else
      var y := Place(q, k - 1, x);
      MovedEntry(Rounds(q, k - 1), y);
      Moved(Rounds(q, k - 1), y)
  }

  // Every entry of the new queue comes from one of the old.
  lemma RoundUnique(q: seq<Entry>)
    requires Runnable(q) && UniquePids(q)
    ensures UniquePids(Round(q))
  {
    var i, r := FirstMin(q), Round(q);
    assert forall x :: 0 <= x < |r| ==> r[x].pid == q[if x < i then x else if x < |q| - 1 then x + 1 else i].pid;
  }

  lemma {:induction false} RoundsUnique(q: seq<Entry>, k: nat)
    requires Runnable(q) && UniquePids(q)
    ensures UniquePids(Rounds(q, k))
  {
    if k > 0 {
      RoundsUnique(q, k - 1);
      RoundUnique(Rounds(q, k - 1));
    }
  }

  /** After any number of rounds a task has paid for exactly the turns it had. */
  lemma {:induction false} PaidForTurns(q: seq<Entry>, k: nat, x: nat)
    requires Runnable(q) && UniquePids(q) && x < |q|
    ensures Rounds(q, k)[Place(q, k, x)] == q[x].(stride := q[x].stride + Turns(q, k, q[x].pid) * Pass(q[x]))
  {
    hide Pass, Round, FirstMin, Moved;
    if k > 0 {
      PaidForTurns(q, k - 1, x);
      RoundsUnique(q, k - 1);
      var r, y, n := Rounds(q, k - 1), Place(q, k - 1, x), Turns(q, k - 1, q[x].pid);
      MovedEntry(r, y);
      OneTurn(r, y, q[x], n);
    }
  }

  lemma OneTurn(r: seq<Entry>, y: nat, e: Entry, n: nat)
    requires Runnable(r) && UniquePids(r) && y < |r| && e.priority >= 2
    requires r[y] == e.(stride := e.stride + n * Pass(e))
    ensures Fetched(r) == e.pid <==> y == FirstMin(r)
    ensures Charged(r[y]) == e.(stride := e.stride + (n + 1) * Pass(e))
  {
    hide FirstMin;
    assert Pass(r[y]) == Pass(e);
    hide Pass;
    assert (n + 1) * Pass(e) == n * Pass(e) + Pass(e);
  }

  /** Shares: from equal strides, turns weighted by their cost never differ by more than the bound. */
  lemma FairShares(q: seq<Entry>, k: nat, x: nat, y: nat)
    requires Runnable(q) && UniquePids(q) && x < |q| && y < |q|
    requires forall i, j :: 0 <= i < |q| && 0 <= j < |q| ==> q[i].stride == q[j].stride
    ensures Turns(q, k, q[x].pid) * Pass(q[x]) <= Turns(q, k, q[y].pid) * Pass(q[y]) + HALF
  {
    SpreadForever(q, k);
    PaidForTurns(q, k, x);
    PaidForTurns(q, k, y);
    hide Turns, Pass, Rounds, Place;
    var r := Rounds(q, k);
    assert r[Place(q, k, x)].stride <= r[Place(q, k, y)].stride + HALF;
  }

  /** A turn costs BIG_STRIDE shared out by priority, rounded down. */
  lemma PassMeans(e: Entry)
    requires e.priority > 0
    ensures e.priority * Pass(e) <= BIG_STRIDE < e.priority * (Pass(e) + 1)
  {
    Divided(BIG_STRIDE, e.priority);
    assert e.priority * (Pass(e) + 1) == e.priority * Pass(e) + e.priority;
  }

  /**
   Shares by priority: from equal strides, after any number of rounds, turns are in proportion to priorities, up to
   half of BIG_STRIDE and what rounding down the cost of a turn saves the task in each of its turns.
   */
  lemma SharesByPriority(q: seq<Entry>, k: nat, x: nat, y: nat)
    requires Runnable(q) && UniquePids(q) && x < |q| && y < |q|
    requires forall i, j :: 0 <= i < |q| && 0 <= j < |q| ==> q[i].stride == q[j].stride
    ensures var a, b := q[x].priority, q[y].priority;
            var m, n := Turns(q, k, q[x].pid), Turns(q, k, q[y].pid);
            BIG_STRIDE * (m * b - n * a) <= a * b * (m + HALF)
    ensures var a, b := q[x].priority, q[y].priority;
            var m, n := Turns(q, k, q[x].pid), Turns(q, k, q[y].pid);
            BIG_STRIDE % a == 0 ==> 2 * (m * b - n * a) <= a * b
  {
    hide Turns;
    var a, b := q[x].priority, q[y].priority;
    var m, n := Turns(q, k, q[x].pid), Turns(q, k, q[y].pid);
    FairShares(q, k, x, y);
    PassMeans(q[x]);
    PassMeans(q[y]);
    var c, d := Pass(q[x]), Pass(q[y]);
    Divides(a);
    hide Pass;
    Scaled(a, b, c, d, m, n);
    if BIG_STRIDE % a == 0 { ScaledExactly(a, b, c, d, m, n); }
  }

  lemma Divides(a: nat)
    requires a > 0
    ensures BIG_STRIDE % a == 0 ==> a * (BIG_STRIDE / a) == BIG_STRIDE
  {
  }

  // m turns at cost c against n turns at cost d, where a turn of each costs its share of BIG_STRIDE.
  lemma Scaled(a: nat, b: nat, c: nat, d: nat, m: nat, n: nat)
    requires m * c <= n * d + HALF && b * d <= BIG_STRIDE < a * c + a
    ensures BIG_STRIDE * (m * b - n * a) <= a * b * (m + HALF)
  {
    calc {
      (m * b) * BIG_STRIDE;
    <= { Times(m * b, BIG_STRIDE, a * c + a); }
      (m * b) * (a * c + a);
    == { Spread3(m, b, a, c); }
      (a * b) * (m * c) + (a * b) * m;
    <= { Times(a * b, m * c, n * d + HALF); }
      (a * b) * (n * d + HALF) + (a * b) * m;
    == { Spread4(a, b, n, d, m); }
      (n * a) * (b * d) + (a * b) * (m + HALF);
    <= { Times(n * a, b * d, BIG_STRIDE); }
      (n * a) * BIG_STRIDE + (a * b) * (m + HALF);
    }
    assert BIG_STRIDE * (m * b - n * a) == (m * b) * BIG_STRIDE - (n * a) * BIG_STRIDE;
  }

  lemma ScaledExactly(a: nat, b: nat, c: nat, d: nat, m: nat, n: nat)
    requires m * c <= n * d + HALF && b * d <= BIG_STRIDE == a * c
    ensures 2 * (m * b - n * a) <= a * b
  {
    calc {
      (m * b) * BIG_STRIDE;
    == { Spread3(m, b, a, c); }
      (a * b) * (m * c);
    <= { Times(a * b, m * c, n * d + HALF); }
      (a * b) * (n * d + HALF);
    == { Spread4(a, b, n, d, 0); }
      (n * a) * (b * d) + (a * b) * HALF;
    <= { Times(n * a, b * d, BIG_STRIDE); }
      (n * a) * BIG_STRIDE + (a * b) * HALF;
    }
    Halved(m * b, n * a, a * b);
  }

  lemma Halved(x: nat, y: nat, z: nat)
    requires x * BIG_STRIDE <= y * BIG_STRIDE + z * HALF
    ensures 2 * (x - y) <= z
  {
  }

  lemma Spread3(m: nat, b: nat, a: nat, c: nat)
    ensures (m * b) * (a * c + a) == (a * b) * (m * c) + (a * b) * m
    ensures (m * b) * (a * c) == (a * b) * (m * c)
  {
    assert (m * b) * (a * c) == (a * b) * (m * c);
    assert (m * b) * a == (a * b) * m;
    assert (m * b) * (a * c + a) == (m * b) * (a * c) + (m * b) * a;
  }

  lemma Spread4(a: nat, b: nat, n: nat, d: nat, m: nat)
    ensures (a * b) * (n * d + HALF) + (a * b) * m == (n * a) * (b * d) + (a * b) * (m + HALF)
  {
    assert (a * b) * (n * d) == (n * a) * (b * d);
    assert (a * b) * (n * d + HALF) == (a * b) * (n * d) + (a * b) * HALF;
    assert (a * b) * (m + HALF) == (a * b) * m + (a * b) * HALF;
  }

  // ----- waiting

  // Some task ahead in stride never pays.
  ghost predicate Blocked(q: seq<Entry>, s: nat) {
    exists j :: 0 <= j < |q| && q[j].priority > BIG_STRIDE && q[j].stride < s
  }

  // What a task must still pay, or whether it merely stands in front, before one with stride s gets its turn.
  function Debt(e: Entry, s: nat, ahead: bool): nat {
    if e.stride < s then s - e.stride else if e.stride == s && ahead then 1 else 0
  }

  function Debts(q: seq<Entry>, s: nat, ahead: bool): nat {
    if q == [] then 0 else Debt(q[0], s, ahead) + Debts(q[1..], s, ahead)
  }

  // The longest the task at x can wait, in rounds.
  function Wait(q: seq<Entry>, x: nat): nat
    requires x < |q|
  {
    Debts(q[..x], q[x].stride, true) + Debts(q[x + 1..], q[x].stride, false)
  }

  lemma {:induction false} DebtsOfSum(a: seq<Entry>, b: seq<Entry>, s: nat, ahead: bool)
    ensures Debts(a + b, s, ahead) == Debts(a, s, ahead) + Debts(b, s, ahead)
  {
    if a == [] {
      assert a + b == b;
    } else {
      assert (a + b)[1..] == a[1..] + b;
      DebtsOfSum(a[1..], b, s, ahead);
    }
  }

  lemma DebtsWithout(q: seq<Entry>, i: nat, s: nat, ahead: bool)
    requires i < |q|
    ensures Debts(q, s, ahead) == Debts(q[..i] + q[i + 1..], s, ahead) + Debt(q[i], s, ahead)
  {
    assert q == q[..i] + ([q[i]] + q[i + 1..]);
    DebtsOfSum(q[..i], [q[i]] + q[i + 1..], s, ahead);
    DebtsOfSum([q[i]], q[i + 1..], s, ahead);
    DebtsOfSum(q[..i], q[i + 1..], s, ahead);
    assert Debts([q[i]], s, ahead) == Debt(q[i], s, ahead);
  }

  // The one fetched instead of x pays, or falls behind x.
  lemma DebtPaid(q: seq<Entry>, x: nat)
    requires Runnable(q) && x < |q| && x != FirstMin(q) && !Blocked(q, q[x].stride)
    ensures Debt(Charged(q[FirstMin(q)]), q[x].stride, false) < Debt(q[FirstMin(q)], q[x].stride, FirstMin(q) < x)
  {
    PassBound(q[FirstMin(q)]);
  }

  /** Each round that passes over a task shortens its wait, unless someone ahead of it never pays. */
  lemma WaitShrinks(q: seq<Entry>, x: nat)
    requires Runnable(q) && x < |q| && x != FirstMin(q) && !Blocked(q, q[x].stride)
    ensures Moved(q, x) < |q| && Round(q)[Moved(q, x)] == q[x]
    ensures Wait(Round(q), Moved(q, x)) < Wait(q, x)
    ensures !Blocked(Round(q), q[x].stride)
  {
    hide Charged, Debts, Debt, FirstMin, Blocked, Round, Moved, Pass;
    var i, s := FirstMin(q), q[x].stride;
    MovedEntry(q, x);
    StillUnblocked(q, s);
    WaitAfter(q, x);
  }

  lemma WaitAfter(q: seq<Entry>, x: nat)
    requires Runnable(q) && x < |q| && x != FirstMin(q) && !Blocked(q, q[x].stride)
    ensures var y, r := Moved(q, x), Round(q);
            y < |r| && Debts(r[..y], q[x].stride, true) + Debts(r[y + 1..], q[x].stride, false) < Wait(q, x)
  {
    hide Charged, Debts, Debt, FirstMin, Blocked, Round, Moved, Pass;
    var i, s := FirstMin(q), q[x].stride;
    DebtPaid(q, x);
    var c := Charged(q[i]);
    Parts(q, x, c);
    if i < x {
      DebtsWithout(q[..x], i, s, true);
      OneMore(q[x + 1..], c, s);
    } else {
      DebtsWithout(q[x + 1..], i - x - 1, s, false);
      OneMore(q[x + 1..][..i - x - 1] + q[x + 1..][i - x..], c, s);
    }
  }

  lemma OneMore(q: seq<Entry>, e: Entry, s: nat)
    ensures Debts(q + [e], s, false) == Debts(q, s, false) + Debt(e, s, false)
  {
    DebtsOfSum(q, [e], s, false);
    assert Debts([e], s, false) == Debt(e, s, false);
  }

  // What stands before and after the task at x once another was fetched.
  lemma Parts(q: seq<Entry>, x: nat, c: Entry)
    requires Runnable(q) && x < |q| && x != FirstMin(q) && c == Charged(q[FirstMin(q)])
    ensures var i, y, r := FirstMin(q), Moved(q, x), Round(q);
            && y < |r|
            && (i < x ==> r[..y] == q[..x][..i] + q[..x][i + 1..] && r[y + 1..] == q[x + 1..] + [c])
            && (i > x ==> r[..y] == q[..x] && r[y + 1..] == q[x + 1..][..i - x - 1] + q[x + 1..][i - x..] + [c])
  {
    hide Charged, FirstMin, Pass, Runnable;
    var i, y := FirstMin(q), Moved(q, x);
    if i < x {
      PartsBefore(q, i, x, c);
    } else {
      PartsAfter(q, i, x, c);
    }
  }

  lemma PartsBefore(q: seq<Entry>, i: nat, x: nat, c: Entry)
    requires i < x < |q|
    ensures var r := q[..i] + q[i + 1..] + [c];
            r[..x - 1] == q[..x][..i] + q[..x][i + 1..] && r[x..] == q[x + 1..] + [c]
  {
    var front, r := q[..x][..i] + q[..x][i + 1..], q[..i] + q[i + 1..] + [c];
    assert r == front + ([q[x]] + q[x + 1..] + [c]);
    assert |front| == x - 1;
  }

  lemma PartsAfter(q: seq<Entry>, i: nat, x: nat, c: Entry)
    requires x < i < |q|
    ensures var r := q[..i] + q[i + 1..] + [c];
            r[..x] == q[..x] && r[x + 1..] == q[x + 1..][..i - x - 1] + q[x + 1..][i - x..] + [c]
  {
    var back, r := q[x + 1..][..i - x - 1] + q[x + 1..][i - x..] + [c], q[..i] + q[i + 1..] + [c];
    assert r == q[..x] + [q[x]] + back;
  }

  lemma StillUnblocked(q: seq<Entry>, s: nat)
    requires Runnable(q) && !Blocked(q, s)
    ensures !Blocked(Round(q), s)
  {
    var i, r := FirstMin(q), Round(q);
    PassBound(q[i]);
    hide Pass;
    assert forall x :: 0 <= x < |r| ==> r[x] == if x < i then q[x] else if x < |q| - 1 then q[x + 1] else Charged(q[i]);
  }

  lemma StillBlocked(q: seq<Entry>, s: nat)
    requires Runnable(q) && Blocked(q, s)
    ensures Blocked(Round(q), s)
  {
    var j :| 0 <= j < |q| && q[j].priority > BIG_STRIDE && q[j].stride < s;
    MovedEntry(q, j);
    PassBound(q[j]);
    assert Round(q)[Moved(q, j)].stride < s;
  }

  /** A task that nobody blocks is fetched within its wait. */
  lemma {:induction false} Served(q: seq<Entry>, x: nat) returns (k: nat)
    requires Runnable(q) && x < |q| && !Blocked(q, q[x].stride)
    ensures k <= Wait(q, x) && Fetched(Rounds(q, k)) == q[x].pid
    decreases Wait(q, x)
  {
    hide Round, Moved, Wait, Blocked, FirstMin, Pass, Runnable, Rounds;
    if x == FirstMin(q) {
      NoRounds(q);
      k := 0;
    } else {
      WaitShrinks(q, x);
      var n := Served(Round(q), Moved(q, x));
      RoundFirst(q, n);
      k := n + 1;
    }
  }

  lemma NoRounds(q: seq<Entry>)
    requires Runnable(q)
    ensures Rounds(q, 0) == q
  {
  }

  lemma {:induction false} RoundFirst(q: seq<Entry>, k: nat)
    requires Runnable(q)
    ensures Rounds(Round(q), k) == Rounds(q, k + 1)
  {
    hide Round, Runnable;
    if k > 0 { RoundFirst(q, k - 1); }
  }

  /** A task that somebody blocks is never fetched. */
  lemma {:induction false} Starved(q: seq<Entry>, x: nat, k: nat)
    requires Runnable(q) && UniquePids(q) && x < |q| && Blocked(q, q[x].stride)
    ensures Fetched(Rounds(q, k)) != q[x].pid
    ensures Blocked(Rounds(q, k), q[x].stride) && Rounds(q, k)[Place(q, k, x)] == q[x]
  {
    hide Round, Moved, FirstMin, Pass;
    if k > 0 {
      Starved(q, x, k - 1);
      MovedEntry(Rounds(q, k - 1), Place(q, k - 1, x));
      StillBlocked(Rounds(q, k - 1), q[x].stride);
    }
    RoundsUnique(q, k);
    var r := Rounds(q, k);
    var j :| 0 <= j < |r| && r[j].priority > BIG_STRIDE && r[j].stride < q[x].stride;
    assert r[FirstMin(r)].stride <= r[j].stride;
  }

  /** Exactly when a waiting task gets the processor: unless a task with a smaller stride has a priority above BIG_STRIDE. */
  lemma ServedExactly(q: seq<Entry>, x: nat)
    requires Runnable(q) && UniquePids(q) && x < |q|
    ensures (exists k: nat :: Fetched(Rounds(q, k)) == q[x].pid) <==> !Blocked(q, q[x].stride)
    ensures (exists k: nat :: k <= Wait(q, x) && Fetched(Rounds(q, k)) == q[x].pid) <==> !Blocked(q, q[x].stride)
  {
    if Blocked(q, q[x].stride) {
      forall k: nat ensures Fetched(Rounds(q, k)) != q[x].pid { Starved(q, x, k); }
    } else {
      var k := Served(q, x);
    }
  }

  lemma {:induction false} DebtsBound(q: seq<Entry>, s: nat, ahead: bool)
    requires forall i :: 0 <= i < |q| ==> s <= q[i].stride + HALF
    ensures Debts(q, s, ahead) <= |q| * HALF
  {
    if q != [] {
      assert forall i :: 0 <= i < |q[1..]| ==> q[1..][i] == q[i + 1];
      assert s <= q[0].stride + HALF;
      DebtsBound(q[1..], s, ahead);
    }
  }

  /** Bounded waiting: within the spread bound, priorities up to BIG_STRIDE serve every task in at most HALF rounds per rival. */
  lemma BoundedWaiting(q: seq<Entry>, x: nat) returns (k: nat)
    requires Runnable(q) && Spread(q) && x < |q|
    requires forall i :: 0 <= i < |q| ==> q[i].priority <= BIG_STRIDE
    ensures k <= (|q| - 1) * HALF && Fetched(Rounds(q, k)) == q[x].pid
  {
    k := Served(q, x);
    var s := q[x].stride;
    DebtsBound(q[..x], s, true);
    DebtsBound(q[x + 1..], s, false);
    assert |q[..x]| + |q[x + 1..]| == |q| - 1;
    assert x * HALF + (|q| - x - 1) * HALF == (|q| - 1) * HALF;
  }

  // Two strides, one of a task that never pays and the other larger.
  lemma {:induction false} StarvedPair(a: Entry, b: Entry, k: nat)
    requires a.pid != b.pid && a.priority >= 2 && b.priority > BIG_STRIDE && b.stride < a.stride
    ensures Runnable([a, b]) && Fetched(Rounds([a, b], k)) != a.pid
  {
    var q := [a, b];
    assert q[1].stride < q[0].stride;
    Starved(q, 0, k);
  }

  lemma RoundOfOne(e: Entry)
    requires e.priority >= 2
    ensures Round([e]) == [Charged(e)]
  {
  }

  lemma RoundOfTwo(a: Entry, b: Entry)
    requires a.priority >= 2 && b.priority >= 2
    ensures Round([a, b]) == if b.stride < a.stride then [a, Charged(b)] else [b, Charged(a)]
  {
    hide Charged, Pass;
    var q := [a, b];
    assert q[..1] == [a];
    assert FirstMin(q) == if b.stride < a.stride then 1 else 0;
  }
}
