/**
 One sleep lock, any number of processes and CPUs: acquiresleep, releasesleep, sleep,
 wakeup and kill as micro-steps that interleave freely.

 lk is the spinlock inside the sleep lock, pt is ptable.lock. A program point names what a
 process does next; the comment says which spinlocks it holds there.
 */
module SleepLock {

  datatype Owner = Nobody | Process(i: nat) | Scheduler

  datatype Point =
    | Idle          // outside
    | AcqLk         // acquire(&lk->lk), first time or again after sleeping
    | Test          // lk: while (lk->locked)
    | SleepPt       // lk: sleep acquires ptable.lock
    | SleepLk       // lk, pt: sleep releases lk
    | SleepMark     // pt: chan and SLEEPING
    | SleepSched    // pt: sched
    | Switched      // off the CPU
    | Resume        // pt: back from sched, chan = 0, release ptable.lock
    | Take          // lk: lk->locked = 1
    | TakePid       // lk: lk->pid = pid
    | TakeRel       // lk: release(&lk->lk)
    | Held          // the critical section
    | RelAcq        // releasesleep: acquire(&lk->lk)
    | RelClear      // lk: lk->locked = 0
    | RelPid        // lk: lk->pid = 0
    | RelPt         // lk: wakeup acquires ptable.lock
    | RelWake       // lk, pt: wakeup1
    | RelPtFree     // lk, pt: wakeup releases ptable.lock
    | RelDone       // lk: release(&lk->lk)
    | KillPt        // kill acquires ptable.lock
    | KillDo        // pt: mark, and wake if sleeping
    | KillRel       // pt: release

  datatype Proc = Proc(at: Point, sleeping: bool)

  /** pid is that of the holder, here its index, when the lock is held. */
  datatype Lock = Lock(lk: Owner, pt: Owner, locked: bool, pid: nat, procs: seq<Proc>)

  predicate HoldsLk(a: Point) {
    match a
    case Test | SleepPt | SleepLk | Take | TakePid | TakeRel => true
    case RelClear | RelPid | RelPt | RelWake | RelPtFree | RelDone => true
    case _ => false
  }

  predicate HoldsPt(a: Point) {
    match a
    case SleepLk | SleepMark | SleepSched | Resume | RelWake | RelPtFree | KillDo | KillRel => true
    case _ => false
  }

  /** The process has the sleep lock. */
  predicate Owns(a: Point) {
    match a
    case TakePid | TakeRel | Held | RelAcq | RelClear => true
    case _ => false
  }

  function Put(s: Lock, i: nat, a: Point): Lock
    requires i < |s.procs|
  {
    s.(procs := s.procs[i := s.procs[i].(at := a)])
  }

  function WakeAll(procs: seq<Proc>): (r: seq<Proc>)
    ensures |r| == |procs| && forall i | 0 <= i < |procs| :: r[i] == procs[i].(sleeping := false)
  {
    seq(|procs|, i requires 0 <= i < |procs| => procs[i].(sleeping := false))
  }

  datatype Step =
    | Go(i: nat)                    // process i does what its point says
    | Call(i: nat, a: Point)        // an idle process calls, the holder releases
    | Kill(i: nat, target: nat)
    | SchedAcquire
    | Dispatch(i: nat)
    | SchedRelease

  /** What process i does at its program point; false where a spinlock keeps it waiting. */
  ghost predicate Does(s: Lock, i: nat, s2: Lock)
    requires i < |s.procs|
  {
    var me := Process(i);
    match s.procs[i].at
    case AcqLk => s.lk == Nobody && s2 == Put(s, i, Test).(lk := me)
    case Test => s2 == Put(s, i, if s.locked then SleepPt else Take)
    case SleepPt => s.pt == Nobody && s2 == Put(s, i, SleepLk).(pt := me)
    case SleepLk => s2 == Put(s, i, SleepMark).(lk := Nobody)
    case SleepMark => s2 == s.(procs := s.procs[i := Proc(SleepSched, true)])
    case SleepSched => s2 == Put(s, i, Switched).(pt := Scheduler)
    case Resume => s2 == Put(s, i, AcqLk).(pt := Nobody)
    case Take => s2 == Put(s, i, TakePid).(locked := true)
    case TakePid => s2 == Put(s, i, TakeRel).(pid := i)
    case TakeRel => s2 == Put(s, i, Held).(lk := Nobody)
    case RelAcq => s.lk == Nobody && s2 == Put(s, i, RelClear).(lk := me)
    case RelClear => s2 == Put(s, i, RelPid).(locked := false)
    case RelPid => s2 == Put(s, i, RelPt).(pid := 0)
    case RelPt => s.pt == Nobody && s2 == Put(s, i, RelWake).(pt := me)
    case RelWake => s2 == Put(s.(procs := WakeAll(s.procs)), i, RelPtFree)
    case RelPtFree => s2 == Put(s, i, RelDone).(pt := Nobody)
    case RelDone => s2 == Put(s, i, Idle).(lk := Nobody)
    case KillPt => s.pt == Nobody && s2 == Put(s, i, KillDo).(pt := me)
    case KillRel => s2 == Put(s, i, Idle).(pt := Nobody)
    case _ => false
  }

  ghost predicate Next(s: Lock, st: Step, s2: Lock) {
    match st
    case Go(i) => i < |s.procs| && Does(s, i, s2)
    case Call(i, a) =>
      && i < |s.procs| && s2 == Put(s, i, a)
      && ((s.procs[i].at == Idle && (a == AcqLk || a == KillPt)) || (s.procs[i].at == Held && a == RelAcq))
    case Kill(i, target) =>
      && i < |s.procs| && target < |s.procs| && s.procs[i].at == KillDo
      && s2 == Put(s.(procs := s.procs[target := s.procs[target].(sleeping := false)]), i, KillRel)
    case SchedAcquire => s.pt == Nobody && s2 == s.(pt := Scheduler)
    case Dispatch(i) => i < |s.procs| && s.pt == Scheduler && s.procs[i] == Proc(Switched, false)
      && s2 == Put(s, i, Resume).(pt := Process(i))
    case SchedRelease => s.pt == Scheduler && s2 == s.(pt := Nobody)
  }

  function Initial(n: nat): Lock {
    Lock(Nobody, Nobody, false, 0, seq(n, i => Proc(Idle, false)))
  }

  // ---- The invariant ----

  /** Someone has cleared locked and not yet called wakeup1; it holds lk. */
  ghost predicate Releasing(s: Lock) {
    s.lk.Process? && s.lk.i < |s.procs| && var a := s.procs[s.lk.i].at; a == RelPid || a == RelPt || a == RelWake
  }

  ghost predicate ProcOk(s: Lock, i: nat)
    requires i < |s.procs|
  {
    var p := s.procs[i];
    && (HoldsLk(p.at) <==> s.lk == Process(i))
    && (HoldsPt(p.at) <==> s.pt == Process(i))
    && (p.sleeping ==> p.at == SleepSched || p.at == Switched)
    && (p.at == SleepPt || p.at == SleepLk || Owns(p.at) ==> s.locked)
    && (p.at == Take || p.at == RelPid || p.at == RelPt || p.at == RelWake || p.at == RelPtFree || p.at == RelDone ==>
          !s.locked)
    && (p.sleeping || p.at == SleepMark ==> s.locked || Releasing(s))
    && (Owns(p.at) && p.at != TakePid ==> s.pid == i)
  }

  ghost predicate OneOwner(s: Lock) {
    && (forall i: nat, j: nat | i < |s.procs| && j < |s.procs| && Owns(s.procs[i].at) && Owns(s.procs[j].at) :: i == j)
    && (s.locked ==> exists i: nat :: i < |s.procs| && Owns(s.procs[i].at))
  }

  ghost predicate Inv(s: Lock) {
    && (s.lk.Process? ==> s.lk.i < |s.procs|) && s.lk != Scheduler && (s.pt.Process? ==> s.pt.i < |s.procs|)
    && (forall i: nat | i < |s.procs| :: ProcOk(s, i))
    && OneOwner(s)
  }

  predicate InTake(a: Point) {
    match a
    case Take | TakePid | TakeRel => true
    case _ => false
  }

  predicate InPassing(a: Point) {
    match a
    case Resume | RelAcq | KillPt | KillRel => true
    case _ => false
  }

  predicate InRelease(a: Point) {
    match a
    case RelClear | RelPid | RelPt | RelWake | RelPtFree | RelDone => true
    case _ => false
  }

  /** The other processes, and the one that moved, still fit; first for the way into sleep. */
  lemma SleepStep(s: Lock, i: nat, s2: Lock, j: nat)
    requires Inv(s) && i < |s.procs| && Does(s, i, s2) && !InRelease(s.procs[i].at) && !InTake(s.procs[i].at)
    requires !InPassing(s.procs[i].at) && j < |s.procs|
    ensures |s2.procs| == |s.procs| && ProcOk(s2, j)
  {
    assert ProcOk(s, i) && ProcOk(s, j);
    assert s.lk.Process? ==> ProcOk(s, s.lk.i);
  }

  /** Then for taking. */
  lemma TakeStep(s: Lock, i: nat, s2: Lock, j: nat)
    requires Inv(s) && i < |s.procs| && Does(s, i, s2) && InTake(s.procs[i].at) && j < |s.procs|
    ensures |s2.procs| == |s.procs| && ProcOk(s2, j)
  {
    assert ProcOk(s, i) && ProcOk(s, j);
    assert s.lk.Process? ==> ProcOk(s, s.lk.i);
  }

  /** For coming back from sched, starting to release, and kill. */
  lemma PassStep(s: Lock, i: nat, s2: Lock, j: nat)
    requires Inv(s) && i < |s.procs| && Does(s, i, s2) && InPassing(s.procs[i].at) && j < |s.procs|
    ensures |s2.procs| == |s.procs| && ProcOk(s2, j)
  {
    assert ProcOk(s, i) && ProcOk(s, j);
    assert s.lk.Process? ==> ProcOk(s, s.lk.i);
  }

  /** And for releasing. */
  lemma ReleaseStep(s: Lock, i: nat, s2: Lock, j: nat)
    requires Inv(s) && i < |s.procs| && Does(s, i, s2) && InRelease(s.procs[i].at) && j < |s.procs|
    ensures |s2.procs| == |s.procs| && ProcOk(s2, j)
  {
    assert ProcOk(s, i) && ProcOk(s, j);
    assert s.lk.Process? ==> ProcOk(s, s.lk.i);
  }

  /** Taking the lock: nobody else owns it, because it was not locked. */
  lemma TakeOwns(s: Lock, i: nat, s2: Lock)
    requires Inv(s) && i < |s.procs| && s.procs[i].at == Take && s2 == Put(s, i, TakePid).(locked := true)
    ensures OneOwner(s2)
  {
    assert ProcOk(s, i) && Owns(s2.procs[i].at);
    forall j: nat | j < |s.procs| ensures !Owns(s.procs[j].at) {
      assert ProcOk(s, j);
    }
  }

  lemma OwnsSame(s: Lock, i: nat, s2: Lock, j: nat)
    requires i < |s.procs| && Does(s, i, s2) && s.procs[i].at != Take && j < |s.procs|
    ensures |s2.procs| == |s.procs| && (Owns(s2.procs[j].at) ==> Owns(s.procs[j].at))
    ensures s2.locked ==> s.locked && (Owns(s2.procs[j].at) <==> Owns(s.procs[j].at))
  {
  }

  lemma OwnerKept(s: Lock, i: nat, s2: Lock)
    requires Inv(s) && i < |s.procs| && Does(s, i, s2) && s.procs[i].at != Take
    ensures |s2.procs| == |s.procs| && OneOwner(s2)
  {
    OwnsSame(s, i, s2, i);
    forall j: nat | j < |s.procs| ensures Owns(s2.procs[j].at) ==> Owns(s.procs[j].at) {
      OwnsSame(s, i, s2, j);
    }
    if s2.locked {
      var k: nat :| k < |s.procs| && Owns(s.procs[k].at);
      OwnsSame(s, i, s2, k);
    }
  }

  lemma GoKeeps(s: Lock, i: nat, s2: Lock)
    requires Inv(s) && i < |s.procs| && Does(s, i, s2)
    ensures Inv(s2)
  {
    if s.procs[i].at == Take {
      TakeOwns(s, i, s2);
    } else {
      OwnerKept(s, i, s2);
    }
    forall j: nat | j < |s2.procs| ensures ProcOk(s2, j) {
      if InRelease(s.procs[i].at) {
        ReleaseStep(s, i, s2, j);
      } else if InTake(s.procs[i].at) {
        TakeStep(s, i, s2, j);
      } else if InPassing(s.procs[i].at) {
        PassStep(s, i, s2, j);
      } else {
        SleepStep(s, i, s2, j);
      }
    }
  }

  /** Calls, kills and the scheduler leave ownership alone. */
  lemma OtherStep(s: Lock, st: Step, s2: Lock, j: nat)
    requires Inv(s) && Next(s, st, s2) && !st.Go? && j < |s.procs|
    ensures |s2.procs| == |s.procs| && ProcOk(s2, j) && (Owns(s2.procs[j].at) <==> Owns(s.procs[j].at))
    ensures s2.locked == s.locked
  {
    OtherReleasing(s, st, s2);
    match st
    case Call(i, a) => CallStep(s, i, a, s2, j);
    case Kill(i, target) => KillStep(s, i, target, s2, j);
    case _ => SchedStep(s, st, s2, j);
  }

  lemma CallStep(s: Lock, i: nat, a: Point, s2: Lock, j: nat)
    requires Inv(s) && Next(s, Call(i, a), s2) && j < |s.procs| && (Releasing(s) ==> Releasing(s2))
    ensures |s2.procs| == |s.procs| && ProcOk(s2, j) && (Owns(s2.procs[j].at) <==> Owns(s.procs[j].at))
    ensures s2.locked == s.locked
  {
    hide Releasing;
    assert ProcOk(s, j) && ProcOk(s, i);
  }

  lemma KillStep(s: Lock, i: nat, target: nat, s2: Lock, j: nat)
    requires Inv(s) && Next(s, Kill(i, target), s2) && j < |s.procs| && (Releasing(s) ==> Releasing(s2))
    ensures |s2.procs| == |s.procs| && ProcOk(s2, j) && (Owns(s2.procs[j].at) <==> Owns(s.procs[j].at))
    ensures s2.locked == s.locked
  {
    hide Releasing;
    assert ProcOk(s, j) && ProcOk(s, i);
  }

  lemma SchedStep(s: Lock, st: Step, s2: Lock, j: nat)
    requires Inv(s) && Next(s, st, s2) && !st.Go? && !st.Call? && !st.Kill? && j < |s.procs|
    requires (Releasing(s) ==> Releasing(s2))
    ensures |s2.procs| == |s.procs| && ProcOk(s2, j) && (Owns(s2.procs[j].at) <==> Owns(s.procs[j].at))
    ensures s2.locked == s.locked
  {
    hide Releasing;
    assert ProcOk(s, j);
    assert st.Dispatch? ==> ProcOk(s, st.i);
  }

  lemma OtherReleasing(s: Lock, st: Step, s2: Lock)
    requires Inv(s) && Next(s, st, s2) && !st.Go?
    ensures s2.lk == s.lk && s2.locked == s.locked && s2.pid == s.pid && (Releasing(s) ==> Releasing(s2))
  {
    assert s.lk.Process? ==> ProcOk(s, s.lk.i);
  }

  lemma NextKeeps(s: Lock, st: Step, s2: Lock)
    requires Inv(s) && Next(s, st, s2)
    ensures Inv(s2)
  {
    if st.Go? {
      GoKeeps(s, st.i, s2);
    } else {
      forall j: nat | j < |s2.procs| ensures ProcOk(s2, j) && (Owns(s2.procs[j].at) <==> Owns(s.procs[j].at)) {
        OtherStep(s, st, s2, j);
      }
      if s2.locked {
        var k: nat :| k < |s.procs| && Owns(s.procs[k].at);
        OtherStep(s, st, s2, k);
      }
    }
  }

  ghost predicate IsRun(run: seq<Lock>, steps: seq<Step>) {
    |run| == |steps| + 1 && run[0] == Initial(|run[0].procs|) && forall k | 0 <= k < |steps| ::
        Next(run[k], steps[k], run[k + 1])
  }

  lemma {:induction false} RunKeeps(run: seq<Lock>, steps: seq<Step>, k: nat)
    requires IsRun(run, steps) && k < |run|
    ensures Inv(run[k])
    decreases k
  {
    if k > 0 {
      RunKeeps(run, steps, k - 1);
      assert Next(run[k - 1], steps[k - 1], run[k - 1 + 1]);
      NextKeeps(run[k - 1], steps[k - 1], run[k]);
    }
  }

  /** Mutual exclusion in every state of every run. */
  lemma MutualExclusion(run: seq<Lock>, steps: seq<Step>, k: nat, i: nat, j: nat)
    requires IsRun(run, steps) && k < |run| && i < |run[k].procs| && j < |run[k].procs|
    requires run[k].procs[i].at == Held && run[k].procs[j].at == Held
    ensures i == j && run[k].locked && run[k].pid == i
  {
    RunKeeps(run, steps, k);
    assert ProcOk(run[k], i);
  }

  /** No lost wakeup: with the inner spinlock free and the lock not held, nobody sleeps on it or is about to. */
  lemma NoLostWakeup(run: seq<Lock>, steps: seq<Step>, k: nat, i: nat)
    requires IsRun(run, steps) && k < |run| && i < |run[k].procs| && run[k].lk == Nobody && !run[k].locked
    ensures !run[k].procs[i].sleeping && run[k].procs[i].at != SleepMark
  {
    RunKeeps(run, steps, k);
    assert ProcOk(run[k], i);
  }

  /** holdingsleep, read under lk: locked with this pid means this process owns the lock, and the other way round. */
  lemma HoldingSleepIsExact(run: seq<Lock>, steps: seq<Step>, k: nat, i: nat)
    requires IsRun(run, steps) && k < |run| && i < |run[k].procs| && run[k].lk == Nobody
    ensures run[k].locked && run[k].pid == i <==> Owns(run[k].procs[i].at)
  {
    RunKeeps(run, steps, k);
    var s := run[k];
    assert ProcOk(s, i);
    if s.locked {
      var j: nat :| j < |s.procs| && Owns(s.procs[j].at);
      assert ProcOk(s, j);
    }
  }

  // ---- Who sleeps, and when nothing more happens ----

  ghost predicate Rouses(s: Lock, st: Step, j: nat) {
    (st.Go? && st.i < |s.procs| && s.procs[st.i].at == RelWake) || (st.Kill? && st.target == j)
  }

  /** Process j marked itself at step m, and no wakeup and no kill of it came since. */
  ghost predicate SleepsSince(run: seq<Lock>, steps: seq<Step>, m: nat, k: nat, j: nat)
    requires k < |run| == |steps| + 1
  {
    && m < k && steps[m] == Go(j) && j < |run[m].procs| && run[m].procs[j].at == SleepMark
    && forall l | m < l < k :: !Rouses(run[l], steps[l], j)
  }

  lemma SleepingStep(s: Lock, st: Step, s2: Lock, j: nat)
    requires Next(s, st, s2) && j < |s.procs|
    ensures |s2.procs| == |s.procs|
    ensures s2.procs[j].sleeping <==>
            (st == Go(j) && s.procs[j].at == SleepMark) || (s.procs[j].sleeping && !Rouses(s, st, j))
  {
    if st.Go? {
      if s.procs[st.i].at == RelWake {
        WakeSleeping(s, st.i, s2, j);
      } else {
        GoSleeping(s, st.i, s2, j);
      }
    }
  }

  lemma WakeSleeping(s: Lock, i: nat, s2: Lock, j: nat)
    requires i < |s.procs| && j < |s.procs| && s.procs[i].at == RelWake && Does(s, i, s2)
    ensures |s2.procs| == |s.procs| && !s2.procs[j].sleeping
  {
  }

  lemma GoSleeping(s: Lock, i: nat, s2: Lock, j: nat)
    requires i < |s.procs| && j < |s.procs| && s.procs[i].at != RelWake && Does(s, i, s2)
    ensures |s2.procs| == |s.procs|
    ensures s2.procs[j].sleeping <==> (i == j && s.procs[j].at == SleepMark) || s.procs[j].sleeping
  {
  }

  /** Exactly who sleeps, in every run. */
  lemma {:induction false} AsleepExactly(run: seq<Lock>, steps: seq<Step>, k: nat, j: nat)
    requires IsRun(run, steps) && k < |run| && j < |run[0].procs|
    ensures |run[k].procs| == |run[0].procs|
    ensures run[k].procs[j].sleeping <==> exists m: nat :: SleepsSince(run, steps, m, k, j)
    decreases k
  {
    if k > 0 {
      var p := k - 1;
      AsleepExactly(run, steps, p, j);
      SleepingStep(run[p], steps[p], run[p + 1], j);
      hide Next, Rouses;
      if run[k].procs[j].sleeping {
        if steps[p] == Go(j) && run[p].procs[j].at == SleepMark {
          assert SleepsSince(run, steps, p, k, j);
        } else {
          var m: nat :| SleepsSince(run, steps, m, p, j);
          assert SleepsSince(run, steps, m, k, j);
        }
      }
      if m: nat :| SleepsSince(run, steps, m, k, j) {
        if m < p {
          assert SleepsSince(run, steps, m, p, j);
        }
      }
    }
  }

  /** Process i can take a step of its own: no spinlock keeps it waiting and it is on a CPU. */
  predicate CanGo(s: Lock, i: nat)
    requires i < |s.procs|
  {
    match s.procs[i].at
    case AcqLk | RelAcq => s.lk == Nobody
    case SleepPt | RelPt | KillPt => s.pt == Nobody
    case Idle | Held | Switched => false
    case _ => true
  }

  lemma CanGoMeans(s: Lock, i: nat)
    requires i < |s.procs|
    ensures CanGo(s, i) <==> exists st: Step, s2: Lock :: Next(s, st, s2) && (st == Go(i) || (st.Kill? && st.i == i))
  {
    if CanGo(s, i) {
      var st, s2 := StepOf(s, i);
      assert Next(s, st, s2);
    }
  }

  lemma StepOf(s: Lock, i: nat) returns (st: Step, s2: Lock)
    requires i < |s.procs| && CanGo(s, i)
    ensures Next(s, st, s2) && (st == Go(i) || (st.Kill? && st.i == i))
  {
    var me := Process(i);
    st := Go(i);
    match s.procs[i].at {
      case AcqLk => s2 := Put(s, i, Test).(lk := me);
      case Test => s2 := Put(s, i, if s.locked then SleepPt else Take);
      case SleepPt => s2 := Put(s, i, SleepLk).(pt := me);
      case SleepLk => s2 := Put(s, i, SleepMark).(lk := Nobody);
      case SleepMark => s2 := s.(procs := s.procs[i := Proc(SleepSched, true)]);
      case SleepSched => s2 := Put(s, i, Switched).(pt := Scheduler);
      case Resume => s2 := Put(s, i, AcqLk).(pt := Nobody);
      case Take => s2 := Put(s, i, TakePid).(locked := true);
      case TakePid => s2 := Put(s, i, TakeRel).(pid := i);
      case TakeRel => s2 := Put(s, i, Held).(lk := Nobody);
      case RelAcq => s2 := Put(s, i, RelClear).(lk := me);
      case RelClear => s2 := Put(s, i, RelPid).(locked := false);
      case RelPid => s2 := Put(s, i, RelPt).(pid := 0);
      case RelPt => s2 := Put(s, i, RelWake).(pt := me);
      case RelWake => s2 := Put(s.(procs := WakeAll(s.procs)), i, RelPtFree);
      case RelPtFree => s2 := Put(s, i, RelDone).(pt := Nobody);
      case RelDone => s2 := Put(s, i, Idle).(lk := Nobody);
      case KillPt => s2 := Put(s, i, KillDo).(pt := me);
      case KillDo =>
        st := Kill(i, i);
        s2 := Put(s.(procs := s.procs[i := s.procs[i].(sleeping := false)]), i, KillRel);
      case KillRel => s2 := Put(s, i, Idle).(pt := Nobody);
      case _ =>
        s2 := s;
    }
  }

  /**
   No deadlock, in every run: when no process can take a step and the scheduler finds nobody to
   dispatch, then everybody is outside, in the critical section, or asleep; and if somebody is
   asleep, then somebody is in the critical section, who will wake them.
   */
  lemma NoDeadlock(run: seq<Lock>, steps: seq<Step>, k: nat, i: nat)
    requires IsRun(run, steps) && k < |run| && i < |run[k].procs| && run[k].pt == Nobody
    requires forall j: nat | j < |run[k].procs| :: !CanGo(run[k], j) && run[k].procs[j] != Proc(Switched, false)
    ensures var p := run[k].procs[i]; p.at == Idle || p.at == Held || p == Proc(Switched, true)
    ensures run[k].procs[i].sleeping ==> run[k].pid < |run[k].procs| && run[k].procs[run[k].pid].at == Held
  {
    var s := run[k];
    RunKeeps(run, steps, k);
    assert ProcOk(s, i);
    forall j: nat | j < |s.procs| ensures HoldsLk(s.procs[j].at) ==> CanGo(s, j) {
    }
    assert s.lk.Process? ==> ProcOk(s, s.lk.i);
    if s.procs[i].sleeping {
      var j: nat :| j < |s.procs| && Owns(s.procs[j].at);
      assert ProcOk(s, j) && !CanGo(s, j);
    }
  }
}
