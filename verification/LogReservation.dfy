/**
 Log space reservation in log.c, over every interleaving of file-system operations.

 A process is idle, inside an operation that has appended `used` blocks, or inside
 log_write between its unlocked check of the limits and its locked append. begin_op,
 end_op, the check, the append and the end of commit are the atomic steps.
 */
module LogReservation {
  import opened Collections
  import opened Recovery

  datatype Proc = Idle | Running(used: nat) | Logging(used: nat, bn: nat)

  /** size is log.size of the mounted disk; panicked is set by any of the panics of log.c. */
  datatype State = State(size: nat, lh: seq<nat>, outstanding: int, committing: bool, procs: seq<Proc>, panicked: bool)

  ghost predicate Init(s: State) {
    && s.lh == [] && s.outstanding == 0 && !s.committing && !s.panicked
    && forall p | 0 <= p < |s.procs| :: s.procs[p] == Idle
  }

  /** The check at the top of log_write. */
  predicate Refused(s: State) {
    |s.lh| >= LOGSIZE || |s.lh| >= s.size - 1 || s.outstanding < 1
  }

  datatype Step = Begin | Check(bn: nat) | Append | End | CommitDone

  /** The step that process p takes; operations keep to MAXOPBLOCKS appended blocks. */
  ghost predicate Next(s: State, t: State, p: nat, step: Step) {
    p < |s.procs| && !s.panicked &&
    match step
    case Begin =>
      && s.procs[p] == Idle && !s.committing && |s.lh| + (s.outstanding + 1) * MAXOPBLOCKS <= LOGSIZE
      && t == s.(outstanding := s.outstanding + 1, procs := s.procs[p := Running(0)])
    case Check(bn) =>
      && s.procs[p].Running?
      && t == if Refused(s) then s.(panicked := true) else s.(procs := s.procs[p := Logging(s.procs[p].used, bn)])
    case Append =>
      && s.procs[p].Logging?
      && if s.procs[p].bn in s.lh then t == s.(procs := s.procs[p := Running(s.procs[p].used)])
         else
           && s.procs[p].used < MAXOPBLOCKS
           && t == s.(lh := s.lh + [s.procs[p].bn], procs := s.procs[p := Running(s.procs[p].used + 1)])
    case End =>
      && s.procs[p].Running?
      && t == if s.committing then s.(panicked := true)
              else s.(outstanding := s.outstanding - 1, procs := s.procs[p := Idle], committing := s.outstanding == 1)
    case CommitDone =>
      && s.committing && t == s.(lh := [], committing := false)
  }

  ghost predicate Steps(s: State, t: State) {
    exists p, step :: Next(s, t, p, step)
  }

  ghost predicate IsRun(run: seq<State>) {
    && run != [] && Init(run[0])
    && forall i | 0 <= i < |run| - 1 :: Steps(run[i], run[i + 1])
  }

  /** What operation p may still append. */
  function Slack(p: Proc): nat {
    if p.Idle? || p.used >= MAXOPBLOCKS then 0 else MAXOPBLOCKS - p.used
  }

  function Active(p: Proc): nat {
    if p.Idle? then 0 else 1
  }

  function Sum(f: Proc -> nat, procs: seq<Proc>): nat {
    if procs == [] then 0 else f(procs[|procs| - 1]) + Sum(f, procs[..|procs| - 1])
  }

  lemma {:induction false} SumUpdate(f: Proc -> nat, procs: seq<Proc>, p: nat, v: Proc)
    requires p < |procs|
    ensures Sum(f, procs[p := v]) == Sum(f, procs) - f(procs[p]) + f(v)
  {
    var n := |procs| - 1;
    if p < n {
      SumUpdate(f, procs[..n], p, v);
      assert procs[p := v][..n] == procs[..n][p := v];
    } else {
      assert procs[p := v][..n] == procs[..n];
    }
  }

  lemma {:induction false} SumZero(f: Proc -> nat, procs: seq<Proc>)
    requires forall p | 0 <= p < |procs| :: f(procs[p]) == 0
    ensures Sum(f, procs) == 0
  {
    if procs != [] {
      SumZero(f, procs[..|procs| - 1]);
    }
  }

  lemma {:induction false} SumPart(f: Proc -> nat, procs: seq<Proc>, p: nat)
    requires p < |procs|
    ensures f(procs[p]) <= Sum(f, procs)
  {
    var n := |procs| - 1;
    if p < n {
      SumPart(f, procs[..n], p);
    }
  }

  /** Slack is at most MAXOPBLOCKS for each active operation. */
  lemma {:induction false} SlackBound(procs: seq<Proc>)
    ensures Sum(Slack, procs) <= MAXOPBLOCKS * Sum(Active, procs)
  {
    if procs != [] {
      SlackBound(procs[..|procs| - 1]);
    }
  }

  /** The reservation: logged blocks plus everything that may still be appended fit in the log. */
  ghost predicate Reserved(s: State) {
    && s.outstanding == Sum(Active, s.procs)
    && |s.lh| + Sum(Slack, s.procs) <= LOGSIZE
    && (s.committing ==> s.outstanding == 0)
    && (s.outstanding == 0 && !s.committing ==> s.lh == [])
    && Distinct(s.lh)
  }

  lemma StepKeepsReserved(s: State, t: State, p: nat, step: Step)
    requires Reserved(s) && Next(s, t, p, step)
    ensures Reserved(t) && t.size == s.size
  {
    var v := if |t.procs| == |s.procs| then t.procs[p] else Idle;
    SumUpdate(Active, s.procs, p, v);
    SumUpdate(Slack, s.procs, p, v);
    SumPart(Active, s.procs, p);
    SlackBound(s.procs);
  }

  lemma {:induction false} RunKeepsReserved(run: seq<State>, i: nat)
    requires IsRun(run) && i < |run|
    ensures Reserved(run[i]) && run[i].size == run[0].size
  {
    if i == 0 {
      SumZero(Active, run[0].procs);
      SumZero(Slack, run[0].procs);
    } else {
      RunKeepsReserved(run, i - 1);
      assert Steps(run[i - 1], run[i - 1 + 1]);
      var p, step :| Next(run[i - 1], run[i], p, step);
      StepKeepsReserved(run[i - 1], run[i], p, step);
    }
  }

  /**
   Safety of every run: the reservation holds, commit runs only with no operation
   outstanding, so end_op never finds a commit in progress, and an append never writes
   past block[LOGSIZE].
   */
  lemma RunIsSafe(run: seq<State>, i: nat, p: nat)
    requires IsRun(run) && i < |run| && p < |run[i].procs|
    ensures Reserved(run[i])
    ensures run[i].procs[p].Running? || run[i].procs[p].Logging? ==> !run[i].committing && run[i].outstanding >= 1
    ensures run[i].procs[p].Logging? && run[i].procs[p].used < MAXOPBLOCKS ==> |run[i].lh| < LOGSIZE
  {
    RunKeepsReserved(run, i);
    SumPart(Active, run[i].procs, p);
    SumPart(Slack, run[i].procs, p);
  }

  /** With no operation outstanding and no commit running, the log is empty and any process may begin. */
  lemma IdleLogAdmits(run: seq<State>, i: nat)
    requires IsRun(run) && i < |run| && run[i].outstanding == 0 && !run[i].committing
    ensures run[i].lh == [] && |run[i].lh| + (run[i].outstanding + 1) * MAXOPBLOCKS <= LOGSIZE
  {
    RunKeepsReserved(run, i);
  }

  // ---- When is a log_write refused? ----

  /** In some run, a process with budget left is refused by log_write on a disk with this log size. */
  ghost predicate RefusesBudgeted(size: nat) {
    exists run: seq<State>, p: nat :: EndsRefused(run, size, p)
  }

  ghost predicate EndsRefused(run: seq<State>, size: nat, p: nat) {
    IsRun(run) && run[0].size == size &&
    var s := run[|run| - 1];
    p < |s.procs| && !s.panicked && s.procs[p].Running? && s.procs[p].used < MAXOPBLOCKS && Refused(s)
  }

  /** Three operations in progress that have appended blocks 0, 1, 2, ..., so many each. */
  function Filling(size: nat, a: nat, b: nat, c: nat): (s: State) {
    State(size, seq(a + b + c, i => i), 3, false, [Running(a), Running(b), Running(c)], false)
  }

  /** Process p of Filling(size, a, b, c) has appended one more. */
  lemma AppendOne(run: seq<State>, s: State, t: State, p: nat) returns (run2: seq<State>)
    requires IsRun(run) && run[|run| - 1] == s && p < |s.procs| && !s.panicked && !Refused(s)
    requires s.procs[p].Running? && s.procs[p].used < MAXOPBLOCKS && |s.lh| !in s.lh
    requires t == s.(lh := s.lh + [|s.lh|], procs := s.procs[p := Running(s.procs[p].used + 1)])
    ensures IsRun(run2) && run2[|run2| - 1] == t && run2[0] == run[0]
  {
    var mid := s.(procs := s.procs[p := Logging(s.procs[p].used, |s.lh|)]);
    run2 := Extend(run, mid, p, Check(|s.lh|));
    assert mid.procs[p := Running(s.procs[p].used + 1)] == t.procs;
    run2 := Extend(run2, t, p, Append);
  }

  lemma Extend(run: seq<State>, t: State, p: nat, step: Step) returns (run2: seq<State>)
    requires IsRun(run) && Next(run[|run| - 1], t, p, step)
    ensures IsRun(run2) && run2[|run2| - 1] == t && run2[0] == run[0]
  {
    run2 := run + [t];
    assert Steps(run2[|run| - 1], run2[|run|]);
  }

  /** Every filling is reachable as long as log_write accepts. */
  lemma {:induction false} FillingReachable(size: nat, a: nat, b: nat, c: nat) returns (run: seq<State>)
    requires a <= MAXOPBLOCKS && b <= MAXOPBLOCKS && c <= MAXOPBLOCKS && (a + b + c > 0 ==> a + b + c < size)
    ensures IsRun(run) && run[0].size == size && run[|run| - 1] == Filling(size, a, b, c)
    decreases a + b + c
  {
    if a + b + c == 0 {
      var s := State(size, [], 0, false, [Idle, Idle, Idle], false);
      var s1 := s.(outstanding := 1, procs := [Running(0), Idle, Idle]);
      var s2 := s1.(outstanding := 2, procs := [Running(0), Running(0), Idle]);
      run := Extend([s], s1, 0, Begin);
      run := Extend(run, s2, 1, Begin);
      run := Extend(run, Filling(size, 0, 0, 0), 2, Begin);
    } else {
      var p := if a > 0 then 0 else if b > 0 then 1 else 2;
      var a1, b1, c1 := if p == 0 then a - 1 else a, if p == 1 then b - 1 else b, if p == 2 then c - 1 else c;
      run := FillingReachable(size, a1, b1, c1);
      var s, t := Filling(size, a1, b1, c1), Filling(size, a, b, c);
      assert s.lh + [|s.lh|] == t.lh;
      assert s.procs[p := Running(s.procs[p].used + 1)] == t.procs;
      run := AppendOne(run, s, t, p);
    }
  }

  function Min(a: nat, b: nat): nat {
    if a < b then a else b
  }

  /**
   begin_op's promise, exactly: no operation with budget left is ever refused by log_write
   if and only if the disk's log has more than LOGSIZE blocks. mkfs makes it LOGSIZE.
   */
  lemma RefusalIffLogTooSmall(size: nat)
    ensures RefusesBudgeted(size) <==> size <= LOGSIZE
  {
    if size <= LOGSIZE {
      var m := if size == 0 then 0 else size - 1;
      var a := Min(m, MAXOPBLOCKS);
      var b := Min(m - a, MAXOPBLOCKS);
      var run := FillingReachable(size, a, b, m - a - b);
      assert EndsRefused(run, size, 2);
    }
    if run: seq<State>, p: nat :| EndsRefused(run, size, p) {
      RunIsSafe(run, |run| - 1, p);
      RunKeepsReserved(run, |run| - 1);
      SumPart(Slack, run[|run| - 1].procs, p);
    }
  }

  // ---- When does the list outgrow the log? ----

  /** In some run of operations within their budgets, a commit starts with more blocks than the log has room for. */
  ghost predicate Overruns(size: nat) {
    exists run: seq<State> :: EndsOverrun(run, size)
  }

  /** Log block |lh| - 1 would be block start + |lh|, beyond the log. */
  ghost predicate EndsOverrun(run: seq<State>, size: nat) {
    IsRun(run) && run[0].size == size > 0 &&
    var s := run[|run| - 1];
    !s.panicked && s.committing && |s.lh| >= size
  }

  /** Two operations pass the check with room for one block, and both append. */
  lemma OverrunReachable(size: nat) returns (run: seq<State>)
    requires 2 <= size <= LOGSIZE
    ensures EndsOverrun(run, size)
  {
    var m := size - 2;
    var c := Min(m, MAXOPBLOCKS);
    var a := Min(m - c, MAXOPBLOCKS - 1);
    var b := m - c - a;
    run := FillingReachable(size, a, b, c);
    var s := Filling(size, a, b, c);
    var s1 := s.(procs := [Logging(a, m), Running(b), Running(c)]);
    var s2 := s.(procs := [Logging(a, m), Logging(b, m + 1), Running(c)]);
    var s3 := s2.(lh := s.lh + [m], procs := [Running(a + 1), Logging(b, m + 1), Running(c)]);
    var s4 := s3.(lh := s.lh + [m] + [m + 1], procs := [Running(a + 1), Running(b + 1), Running(c)]);
    run := Extend(run, s1, 0, Check(m));
    run := Extend(run, s2, 1, Check(m + 1));
    run := Extend(run, s3, 0, Append);
    run := Extend(run, s4, 1, Append);
    run := EndAll(run, s4);
  }

  /** The three operations end, and the last one out commits. */
  lemma EndAll(run: seq<State>, s: State) returns (run2: seq<State>)
    requires IsRun(run) && run[|run| - 1] == s && !s.panicked && !s.committing && s.outstanding == |s.procs| == 3
    requires s.procs[0].Running? && s.procs[1].Running? && s.procs[2].Running?
    ensures IsRun(run2) && run2[0] == run[0]
    ensures run2[|run2| - 1] == s.(outstanding := 0, committing := true, procs := [Idle, Idle, Idle])
  {
    var s1 := s.(outstanding := 2, procs := s.procs[0 := Idle]);
    var s2 := s1.(outstanding := 1, procs := s1.procs[1 := Idle]);
    run2 := Extend(run, s1, 0, End);
    run2 := Extend(run2, s2, 1, End);
    run2 := Extend(run2, s.(outstanding := 0, committing := true, procs := [Idle, Idle, Idle]), 2, End);
  }

  /** A log without room for any block is never written to. */
  lemma {:induction false} TinyLogStaysEmpty(run: seq<State>, i: nat)
    requires IsRun(run) && i < |run| && run[0].size <= 1
    ensures run[i].lh == [] && run[i].size == run[0].size
    ensures forall p | 0 <= p < |run[i].procs| :: !run[i].procs[p].Logging?
  {
    if i > 0 {
      TinyLogStaysEmpty(run, i - 1);
      assert Steps(run[i - 1], run[i - 1 + 1]);
    }
  }

  /**
   The limit of log_write, exactly: it reads lh.n before it takes log.lock, so two operations
   may pass it together. In some run a commit has to write more blocks than the log has, the
   last of them beyond its end, if and only if the log has 2 to LOGSIZE blocks; mkfs makes it
   LOGSIZE. In a larger log whoever has passed the check still finds room (RunIsSafe).
   */
  lemma OverrunIffLogTooSmall(size: nat)
    ensures Overruns(size) <==> 2 <= size <= LOGSIZE
  {
    if 2 <= size <= LOGSIZE {
      var run := OverrunReachable(size);
    }
    if run: seq<State> :| EndsOverrun(run, size) {
      RunKeepsReserved(run, |run| - 1);
      if size == 1 {
        TinyLogStaysEmpty(run, |run| - 1);
      }
    }
  }

  /** Even on a larger log, a full log refuses to rewrite a block that it has already absorbed. */
  lemma AbsorbingWriteRefused(size: nat) returns (run: seq<State>, p: nat, bn: nat)
    requires size > LOGSIZE
    ensures IsRun(run) && run[0].size == size
    ensures var s := run[|run| - 1]; p < |s.procs| && s.procs[p].Running? && bn in s.lh && !s.panicked && Refused(s)
  {
    run := FillingReachable(size, MAXOPBLOCKS, MAXOPBLOCKS, MAXOPBLOCKS);
    p, bn := 0, 0;
    assert run[|run| - 1].lh[0] == 0;
  }
}
