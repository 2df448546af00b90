/**
 The process table: fork, exit, wait and kill as steps of one table, and what every run keeps.

 A step is the work done in one hold of ptable.lock, or one write to a slot that only its
 forking process uses. A parent pointer is an index, -1 for null.
 */
module ProcTable {
  import opened Collections

  const NPROC: nat := 64

  datatype State = UNUSED | EMBRYO | SLEEPING | RUNNABLE | RUNNING | ZOMBIE

  /** A sleep channel: a process sleeps on its own slot only in wait. */
  datatype Chan = NoChan | Slot(i: nat) | Elsewhere(c: nat)

  /** maker is the process whose fork call is filling the slot; it is kept for the proofs. */
  datatype Proc = Proc(state: State, pid: nat, parent: int, chan: Chan, killed: bool, maker: int)

  /** exited and reaped are the history of exit and of wait: the pids, in order. */
  datatype Table = Table(procs: seq<Proc>, nextpid: nat, init: nat, exited: seq<nat>, reaped: seq<nat>)

  predicate Live(p: Proc) {
    p.state == RUNNABLE || p.state == RUNNING || p.state == SLEEPING
  }

  predicate InTable(procs: seq<Proc>, i: int) {
    0 <= i < |procs|
  }

  // ---- The operations ----

  predicate SleepsOn(p: Proc, chan: Chan) {
    p.state == SLEEPING && p.chan == chan
  }

  function Woken(p: Proc, chan: Chan): Proc {
    if SleepsOn(p, chan) then p.(state := RUNNABLE) else p
  }

  /** wakeup1 */
  function Wake(procs: seq<Proc>, chan: Chan): (r: seq<Proc>)
    ensures |r| == |procs| && forall i | 0 <= i < |procs| :: r[i] == Woken(procs[i], chan)
  {
    seq(|procs|, i requires 0 <= i < |procs| => Woken(procs[i], chan))
  }

  predicate ZombieChild(p: Proc, of: int) {
    p.parent == of && p.state == ZOMBIE
  }

  function Adopted(p: Proc, from: int, to: int): Proc {
    if p.parent == from then p.(parent := to) else p
  }

  function Adopt(procs: seq<Proc>, from: int, to: int): (r: seq<Proc>)
    ensures |r| == |procs| && forall i | 0 <= i < |procs| :: r[i] == Adopted(procs[i], from, to)
  {
    seq(|procs|, i requires 0 <= i < |procs| => Adopted(procs[i], from, to))
  }

  ghost predicate HasZombie(procs: seq<Proc>, of: int) {
    exists i | 0 <= i < |procs| :: ZombieChild(procs[i], of)
  }

  /** exit's hold of the lock. */
  ghost function Exit(t: Table, cur: nat): Table
    requires cur < |t.procs|
  {
    var woken := Wake(t.procs, if t.procs[cur].parent >= 0 then Slot(t.procs[cur].parent) else NoChan);
    var adopted := Adopt(woken, cur, t.init);
    var told := if HasZombie(t.procs, cur) then Wake(adopted, Slot(t.init)) else adopted;
    t.(procs := told[cur := told[cur].(state := ZOMBIE)], exited := t.exited + [t.procs[cur].pid])
  }

  ghost predicate FirstUnused(procs: seq<Proc>, i: nat) {
    i < |procs| && procs[i].state == UNUSED && forall j | 0 <= j < i :: procs[j].state != UNUSED
  }

  ghost predicate FirstZombie(procs: seq<Proc>, i: nat, of: int) {
    i < |procs| && ZombieChild(procs[i], of) && forall j | 0 <= j < i :: !ZombieChild(procs[j], of)
  }

  /** The slot that kill(pid) finds. */
  ghost predicate FirstPid(procs: seq<Proc>, i: nat, pid: nat) {
    i < |procs| && procs[i].pid == pid && forall j | 0 <= j < i :: procs[j].pid != pid
  }

  function Cleared(p: Proc): Proc {
    p.(pid := 0, parent := -1, killed := false, state := UNUSED)
  }

  /** wait reaps the zombie child in slot i. */
  function Reap(t: Table, i: nat): Table
    requires i < |t.procs|
  {
    t.(procs := t.procs[i := Cleared(t.procs[i])], reaped := t.reaped + [t.procs[i].pid])
  }

  function Asleep(t: Table, cur: nat, chan: Chan): Table
    requires cur < |t.procs|
  {
    t.(procs := t.procs[cur := t.procs[cur].(state := SLEEPING, chan := chan)])
  }

  function Allocated(t: Table, i: nat, cur: int): Table
    requires i < |t.procs|
  {
    t.(procs := t.procs[i := t.procs[i].(state := EMBRYO, pid := t.nextpid, maker := cur)], nextpid := t.nextpid + 1)
  }

  function Killed(p: Proc): Proc {
    p.(killed := true, state := if p.state == SLEEPING then RUNNABLE else p.state)
  }

  /** The process in slot cur is running and not inside fork. */
  ghost predicate Free(t: Table, cur: nat) {
    cur < |t.procs| && t.procs[cur].state == RUNNING &&
    forall i | 0 <= i < |t.procs| :: !(t.procs[i].state == EMBRYO && t.procs[i].maker == cur)
  }

  datatype Step =
    | DoAlloc(cur: nat, i: nat)
    | DoFail(i: nat)
    | DoParent(i: nat)
    | DoStart(i: nat)
    | DoDispatch(i: nat)
    | DoYield(i: nat)
    | DoTidy(i: nat)
    | DoSleep(i: nat, c: nat)
    | DoWakeup(c: nat)
    | DoKill(pid: nat, i: nat)
    | DoExit(cur: nat)
    | DoReap(cur: nat, i: nat)
    | DoWait(cur: nat)

  ghost predicate Set(t: Table, t2: Table, i: nat, p: Proc) {
    i < |t.procs| && t2 == t.(procs := t.procs[i := p])
  }

  /** One step of any process, or of the scheduler. */
  ghost predicate Next(t: Table, s: Step, t2: Table) {
    match s
    case DoAlloc(cur, i) => Free(t, cur) && FirstUnused(t.procs, i) && t2 == Allocated(t, i, cur)
    case DoFail(i) => InTable(t.procs, i) && t.procs[i].state == EMBRYO && t.procs[i].parent == -1
      && Set(t, t2, i, t.procs[i].(state := UNUSED))
    case DoParent(i) => InTable(t.procs, i) && t.procs[i].state == EMBRYO
      && Set(t, t2, i, t.procs[i].(parent := t.procs[i].maker))
    case DoStart(i) => InTable(t.procs, i) && t.procs[i].state == EMBRYO && t.procs[i].parent != -1
      && Set(t, t2, i, t.procs[i].(state := RUNNABLE))
    case DoDispatch(i) => InTable(t.procs, i) && t.procs[i].state == RUNNABLE
      && Set(t, t2, i, t.procs[i].(state := RUNNING))
    case DoYield(i) => InTable(t.procs, i) && t.procs[i].state == RUNNING
      && Set(t, t2, i, t.procs[i].(state := RUNNABLE))
    case DoTidy(i) => InTable(t.procs, i) && t.procs[i].state == RUNNING && Set(t, t2, i, t.procs[i].(chan := NoChan))
    case DoSleep(i, c) => InTable(t.procs, i) && t.procs[i].state == RUNNING && t2 == Asleep(t, i, Elsewhere(c))
    case DoWakeup(c) => t2 == t.(procs := Wake(t.procs, Elsewhere(c)))
    case DoKill(pid, i) => FirstPid(t.procs, i, pid) && Set(t, t2, i, Killed(t.procs[i]))
    case DoExit(cur) => Free(t, cur) && cur != t.init && t2 == Exit(t, cur)
    case DoReap(cur, i) => Free(t, cur) && FirstZombie(t.procs, i, cur) && t2 == Reap(t, i)
    case DoWait(cur) => Free(t, cur) && !HasZombie(t.procs, cur) && t2 == Asleep(t, cur, Slot(cur))
  }

  // ---- What the steps do, field by field ----

  /** Only slot i changes, and of it only the state, the pid, the parent, the channel and the flag. */
  ghost predicate OnlySlot(t: Table, t2: Table, i: nat) {
    && i < |t.procs| == |t2.procs| && t2.init == t.init && t2.exited == t.exited
    && forall j | 0 <= j < |t.procs| && j != i :: t2.procs[j] == t.procs[j]
  }

  ghost predicate SameButState(p: Proc, q: Proc) {
    q.pid == p.pid && q.parent == p.parent && q.chan == p.chan && q.killed == p.killed && q.maker == p.maker
  }

  /** p is marked and not left asleep; nothing else about it changes. */
  ghost predicate Hit(p: Proc, q: Proc) {
    && q.killed && q.pid == p.pid && q.parent == p.parent && q.chan == p.chan && q.maker == p.maker
    && q.state != SLEEPING && (q.state == RUNNABLE <==> p.state == SLEEPING || p.state == RUNNABLE)
    && (p.state != SLEEPING ==> q.state == p.state)
  }

  /** p is runnable if it slept on the channel; nothing else about it changes. */
  ghost predicate Roused(p: Proc, q: Proc, chan: Chan) {
    && SameButState(p, q)
    && q.state == if p.state == SLEEPING && p.chan == chan then RUNNABLE else p.state
  }

  /** p after the exit of slot cur, if it is not slot cur itself. */
  ghost predicate Bereft(t: Table, cur: nat, p: Proc, q: Proc)
    requires cur < |t.procs|
  {
    && q.pid == p.pid && q.chan == p.chan && q.killed == p.killed && q.maker == p.maker
    && q.parent == (if p.parent == cur then t.init else p.parent)
    && q.state == (if p.state == SLEEPING && p.chan.Slot? && ToldOfExit(t, cur, p.chan.i) then RUNNABLE else p.state)
  }

  /** exit of slot cur wakes waiters on slot i: its parent, and init if it inherits a zombie. */
  ghost predicate ToldOfExit(t: Table, cur: nat, i: nat)
    requires cur < |t.procs|
  {
    || t.procs[cur].parent == i
    || (i == t.init && exists k | 0 <= k < |t.procs| :: t.procs[k].parent == cur && t.procs[k].state == ZOMBIE)
  }

  ghost predicate MovesTo(t: Table, t2: Table, i: nat, state: State) {
    && OnlySlot(t, t2, i) && t2.nextpid == t.nextpid && t2.reaped == t.reaped
    && SameButState(t.procs[i], t2.procs[i]) && t2.procs[i].state == state
  }

  ghost predicate SleepsNow(t: Table, t2: Table, i: nat, chan: Chan) {
    && OnlySlot(t, t2, i) && t2.nextpid == t.nextpid && t2.reaped == t.reaped
    && t.procs[i].state == RUNNING && t2.procs[i].state == SLEEPING && t2.procs[i].chan == chan
    && t2.procs[i].pid == t.procs[i].pid && t2.procs[i].parent == t.procs[i].parent
    && t2.procs[i].killed == t.procs[i].killed && t2.procs[i].maker == t.procs[i].maker
  }

  ghost predicate Effect(t: Table, s: Step, t2: Table) {
    match s
    case DoAlloc(cur, i) =>
      && OnlySlot(t, t2, i) && t2.nextpid == t.nextpid + 1 && t2.reaped == t.reaped && t.procs[i].state == UNUSED
      && t2.procs[i].state == EMBRYO && t2.procs[i].pid == t.nextpid && t2.procs[i].maker == cur
      && t2.procs[i].killed == t.procs[i].killed && t2.procs[i].parent == -1 && t2.procs[i].chan == t.procs[i].chan
    case DoFail(i) => MovesTo(t, t2, i, UNUSED) && t.procs[i].state == EMBRYO
    case DoParent(i) =>
      && OnlySlot(t, t2, i) && t2.nextpid == t.nextpid && t2.reaped == t.reaped
      && t.procs[i].state == EMBRYO == t2.procs[i].state && t2.procs[i].parent == t.procs[i].maker
      && t2.procs[i].pid == t.procs[i].pid && t2.procs[i].killed == t.procs[i].killed
      && t2.procs[i].chan == t.procs[i].chan
    case DoStart(i) => MovesTo(t, t2, i, RUNNABLE) && t.procs[i].state == EMBRYO
    case DoDispatch(i) => MovesTo(t, t2, i, RUNNING) && t.procs[i].state == RUNNABLE
    case DoYield(i) => MovesTo(t, t2, i, RUNNABLE) && t.procs[i].state == RUNNING
    case DoTidy(i) =>
      && OnlySlot(t, t2, i) && t2.nextpid == t.nextpid && t2.reaped == t.reaped
      && t2.procs[i].chan == NoChan && t2.procs[i].state == RUNNING == t.procs[i].state
      && t2.procs[i].pid == t.procs[i].pid && t2.procs[i].parent == t.procs[i].parent
      && t2.procs[i].killed == t.procs[i].killed
    case DoSleep(i, c) => SleepsNow(t, t2, i, Elsewhere(c))
    case DoWait(cur) => SleepsNow(t, t2, cur, Slot(cur))
    case DoWakeup(c) =>
      && |t2.procs| == |t.procs| && t2.nextpid == t.nextpid && t2.reaped == t.reaped && t2.exited == t.exited
      && forall j: nat | j < |t.procs| :: Roused(t.procs[j], t2.procs[j], Elsewhere(c))
    case DoKill(pid, i) =>
      && OnlySlot(t, t2, i) && t2.nextpid == t.nextpid && t2.reaped == t.reaped
      && t.procs[i].pid == pid && Hit(t.procs[i], t2.procs[i])
    case DoReap(cur, i) =>
      && OnlySlot(t, t2, i) && t2.nextpid == t.nextpid && t2.reaped == t.reaped + [t.procs[i].pid]
      && t.procs[i].parent == cur && t.procs[i].state == ZOMBIE
      && t2.procs[i].state == UNUSED && t2.procs[i].pid == 0 && t2.procs[i].parent == -1 && !t2.procs[i].killed
      && t2.procs[i].chan == t.procs[i].chan
    case DoExit(cur) =>
      && cur < |t.procs| == |t2.procs| && t2.nextpid == t.nextpid && t2.reaped == t.reaped
      && t2.exited == t.exited + [t.procs[cur].pid]
      && SameButState(t.procs[cur], t2.procs[cur]) && t.procs[cur].state == RUNNING && t2.procs[cur].state == ZOMBIE
      && forall j: nat | j < |t.procs| && j != cur :: Bereft(t, cur, t.procs[j], t2.procs[j])
  }

  // ---- The invariant ----

  ghost predicate ParentOk(t: Table, i: nat)
    requires i < |t.procs|
  {
    var p := t.procs[i];
    p.parent != -1 ==> InTable(t.procs, p.parent) && Live(t.procs[p.parent]) && t.procs[p.parent].pid < p.pid
  }

  ghost predicate ShapeOk(t: Table, i: nat)
    requires i < |t.procs|
  {
    var p := t.procs[i];
    && p.pid < t.nextpid
    && (p.state == UNUSED ==> p.parent == -1)
    && (p.state != UNUSED ==> 1 <= p.pid)
    && (p.state == EMBRYO ==>
          InTable(t.procs, p.maker) && Live(t.procs[p.maker]) && t.procs[p.maker].pid < p.pid
          && (p.parent == -1 || p.parent == p.maker))
    && ((Live(p) || p.state == ZOMBIE) && i != t.init ==> p.parent != -1)
    && (p.chan.Slot? ==> p.chan.i == i)
  }

  /** Nobody asleep in wait has a zombie child. */
  ghost predicate NoSleepingParent(t: Table, i: nat)
    requires i < |t.procs|
  {
    t.procs[i].state == ZOMBIE && InTable(t.procs, t.procs[i].parent) ==>
        !SleepsOn(t.procs[t.procs[i].parent], Slot(t.procs[i].parent))
  }

  ghost predicate SamePid(t: Table, i: nat, j: nat)
    requires i < |t.procs| && j < |t.procs|
  {
    t.procs[i].pid != 0 && t.procs[i].pid == t.procs[j].pid
  }

  ghost predicate InitOk(t: Table) {
    InTable(t.procs, t.init) && Live(t.procs[t.init]) && t.procs[t.init].pid == 1 && t.procs[t.init].parent == -1
  }

  ghost predicate ZombieOf(t: Table, i: nat, pid: nat) {
    i < |t.procs| && t.procs[i].state == ZOMBIE && t.procs[i].pid == pid
  }

  /** Every exit is reaped at most once: the exited pids are the reaped ones and the zombies', never both. */
  ghost predicate HistoryOk(t: Table) {
    && Distinct(t.exited) && Distinct(t.reaped)
    && (forall x | x in t.exited :: x < t.nextpid && (x in t.reaped || exists i: nat :: ZombieOf(t, i, x)))
    && (forall x | x in t.reaped :: x in t.exited)
    && (forall i: nat | i < |t.procs| :: PidHistory(t, i))
  }

  ghost predicate PidHistory(t: Table, i: nat)
    requires i < |t.procs|
  {
    var p := t.procs[i];
    && (p.state == ZOMBIE ==> p.pid in t.exited && p.pid !in t.reaped)
    && ((Live(p) || p.state == EMBRYO) ==> p.pid !in t.exited)
  }

  ghost predicate Inv(t: Table) {
    && |t.procs| == NPROC && InitOk(t) && t.nextpid >= 2
    && (forall i: nat | i < |t.procs| :: ShapeOk(t, i))
    && (forall i: nat | i < |t.procs| :: ParentOk(t, i))
    && (forall i: nat | i < |t.procs| :: NoSleepingParent(t, i))
    && (forall i: nat, j: nat | i < |t.procs| && j < |t.procs| && SamePid(t, i, j) :: i == j)
    && HistoryOk(t)
  }

  // ---- Every step keeps the invariant ----

  /** A change that moves nobody in the tree: states among the live ones, channels, the killed flag. */
  ghost predicate CalmAt(t: Table, t2: Table, i: nat)
    requires i < |t.procs| && i < |t2.procs|
  {
    var p, p2 := t.procs[i], t2.procs[i];
    && p2.pid == p.pid && p2.parent == p.parent && p2.maker == p.maker
    && (p2.state == p.state || (Live(p) && Live(p2)))
    && (p2.chan.Slot? ==> p2.chan == p.chan || p2.chan.i == i)
    && (SleepsOn(p2, Slot(i)) ==> SleepsOn(p, Slot(i)) || !HasZombie(t.procs, i))
  }

  lemma CalmKeeps(t: Table, t2: Table)
    requires Inv(t) && |t2.procs| == |t.procs| && t2 == t.(procs := t2.procs)
    requires forall i: nat | i < |t.procs| :: CalmAt(t, t2, i)
    ensures Inv(t2)
  {
    forall i: nat | i < |t.procs| ensures ShapeOk(t2, i) && ParentOk(t2, i) && PidHistory(t2, i) {
      assert CalmAt(t, t2, i) && ShapeOk(t, i) && ParentOk(t, i) && PidHistory(t, i);
      assert InTable(t.procs, t.procs[i].parent) ==> CalmAt(t, t2, t.procs[i].parent);
      assert InTable(t.procs, t.procs[i].maker) ==> CalmAt(t, t2, t.procs[i].maker);
    }
    forall i: nat | i < |t.procs| ensures NoSleepingParent(t2, i) {
      assert CalmAt(t, t2, i) && NoSleepingParent(t, i);
      if InTable(t.procs, t.procs[i].parent) {
        assert CalmAt(t, t2, t.procs[i].parent);
      }
    }
    forall i: nat, j: nat | i < |t.procs| && j < |t.procs| && SamePid(t2, i, j) ensures i == j {
      assert CalmAt(t, t2, i) && CalmAt(t, t2, j) && SamePid(t, i, j);
    }
    assert CalmAt(t, t2, t.init);
    forall x | x in t2.exited ensures x < t.nextpid && (x in t2.reaped || exists i: nat :: ZombieOf(t2, i, x)) {
      if x !in t.reaped {
        var i: nat :| ZombieOf(t, i, x);
        assert CalmAt(t, t2, i);
        assert ZombieOf(t2, i, x);
      }
    }
  }

  /** The zombies are the same, so the history still fits. */
  lemma HistoryKept(t: Table, t2: Table)
    requires HistoryOk(t) && |t2.procs| == |t.procs| && t2.exited == t.exited && t2.reaped == t.reaped
    requires t.nextpid <= t2.nextpid
    requires forall i: nat | i < |t.procs| ::
               t.procs[i].state == ZOMBIE ==> t2.procs[i].state == ZOMBIE && t2.procs[i].pid == t.procs[i].pid
    requires forall i: nat | i < |t.procs| :: PidHistory(t2, i)
    ensures HistoryOk(t2)
  {
    forall x | x in t2.exited ensures x < t2.nextpid && (x in t2.reaped || exists i: nat :: ZombieOf(t2, i, x)) {
      if x !in t.reaped {
        var i: nat :| ZombieOf(t, i, x);
        assert ZombieOf(t2, i, x);
      }
    }
  }

  lemma AllocKeeps(t: Table, cur: nat, k: nat)
    requires Inv(t) && Free(t, cur) && FirstUnused(t.procs, k)
    ensures Inv(Allocated(t, k, cur))
  {
    var t2 := Allocated(t, k, cur);
    forall i: nat | i < |t.procs|
      ensures ShapeOk(t2, i) && ParentOk(t2, i) && PidHistory(t2, i) && NoSleepingParent(t2, i)
    {
      assert ShapeOk(t, i) && ParentOk(t, i) && PidHistory(t, i) && NoSleepingParent(t, i) && ShapeOk(t, cur);
    }
    forall i: nat, j: nat | i < |t.procs| && j < |t.procs| && SamePid(t2, i, j) ensures i == j {
      assert ShapeOk(t, i) && ShapeOk(t, j);
      if i != k && j != k {
        assert SamePid(t, i, j);
      }
    }
    HistoryKept(t, t2);
  }

  /** Fork's writes to the slot it is filling. */
  lemma EmbryoKeeps(t: Table, t2: Table, k: nat, p2: Proc)
    requires Inv(t) && Set(t, t2, k, p2) && t.procs[k].state == EMBRYO
    requires || (p2 == t.procs[k].(state := UNUSED) && t.procs[k].parent == -1)
             || p2 == t.procs[k].(parent := t.procs[k].maker)
             || (p2 == t.procs[k].(state := RUNNABLE) && t.procs[k].parent != -1)
    ensures Inv(t2)
  {
    assert ShapeOk(t, k) && ParentOk(t, k) && PidHistory(t, k);
    forall i: nat | i < |t.procs|
      ensures ShapeOk(t2, i) && ParentOk(t2, i) && PidHistory(t2, i) && NoSleepingParent(t2, i)
    {
      assert ShapeOk(t, i) && ParentOk(t, i) && PidHistory(t, i) && NoSleepingParent(t, i);
    }
    forall i: nat, j: nat | i < |t.procs| && j < |t.procs| && SamePid(t2, i, j) ensures i == j {
      assert SamePid(t, i, j);
    }
    HistoryKept(t, t2);
  }

  /** What exit does to a slot other than its own. */
  ghost predicate ExitAt(t: Table, t2: Table, cur: nat, i: nat)
    requires i < |t.procs| && i < |t2.procs| && cur < |t.procs|
  {
    var p, p2 := t.procs[i], t2.procs[i];
    && p2.pid == p.pid && p2.maker == p.maker && p2.chan == p.chan
    && p2.parent == (if p.parent == cur then t.init else p.parent)
    && (p2.state == p.state || (Live(p) && Live(p2)))
    && (SleepsOn(p2, Slot(i)) ==>
          SleepsOn(p, Slot(i)) && i != t.procs[cur].parent && (i == t.init ==> !HasZombie(t.procs, cur)))
  }

  lemma ExitIs(t: Table, cur: nat, i: nat)
    requires Inv(t) && Free(t, cur) && cur != t.init && i < |t.procs| && i != cur
    ensures |Exit(t, cur).procs| == |t.procs| && ExitAt(t, Exit(t, cur), cur, i)
  {
    ExitSlot(t, cur, i);
    ZombieMeans(t, cur);
    hide Inv, Free, Exit, HasZombie;
  }

  lemma ExitKeeps(t: Table, cur: nat)
    requires Inv(t) && Free(t, cur) && cur != t.init
    ensures Inv(Exit(t, cur))
  {
    var t2 := Exit(t, cur);
    ExitSelf(t, cur);
    forall i: nat | i < |t.procs| && i != cur ensures ExitAt(t, t2, cur, i) {
      ExitIs(t, cur, i);
    }
    ExitingKeeps(t, t2, cur);
  }

  lemma ExitingKeeps(t: Table, t2: Table, cur: nat)
    requires Exiting(t, t2, cur)
    ensures Inv(t2)
  {
    assert ExitAt(t, t2, cur, t.init);
    forall i: nat | i < |t.procs|
      ensures ShapeOk(t2, i) && ParentOk(t2, i) && PidHistory(t2, i) && NoSleepingParent(t2, i)
    {
      ExitTree(t, t2, cur, i);
      ExitWakes(t, t2, cur, i);
    }
    forall i: nat, j: nat | i < |t.procs| && j < |t.procs| && SamePid(t2, i, j) ensures i == j {
      assert i != cur ==> ExitAt(t, t2, cur, i);
      assert j != cur ==> ExitAt(t, t2, cur, j);
      assert SamePid(t, i, j);
    }
    ExitHistory(t, t2, cur);
  }

  lemma ExitSelf(t: Table, cur: nat)
    requires Inv(t) && Free(t, cur) && cur != t.init
    ensures var t2 := Exit(t, cur);
            && |t2.procs| == |t.procs| && t2.procs[cur] == t.procs[cur].(state := ZOMBIE) && t2.nextpid == t.nextpid
            && t2.init == t.init
            && t2.exited == t.exited + [t.procs[cur].pid] && t2.reaped == t.reaped
  {
    assert ShapeOk(t, cur) && ParentOk(t, cur);
  }

  ghost predicate Exiting(t: Table, t2: Table, cur: nat) {
    && Inv(t) && Free(t, cur) && cur != t.init && |t2.procs| == |t.procs|
    && t2.procs[cur] == t.procs[cur].(state := ZOMBIE)
    && t2.nextpid == t.nextpid && t2.init == t.init && t2.exited == t.exited + [t.procs[cur].pid]
    && t2.reaped == t.reaped
    && forall i: nat | i < |t.procs| && i != cur :: ExitAt(t, t2, cur, i)
  }

  lemma ExitTree(t: Table, t2: Table, cur: nat, i: nat)
    requires Exiting(t, t2, cur) && i < |t.procs|
    ensures ShapeOk(t2, i) && ParentOk(t2, i) && PidHistory(t2, i)
  {
    assert ShapeOk(t, i) && ParentOk(t, i) && PidHistory(t, i) && ShapeOk(t, cur) && ParentOk(t, cur);
    assert ExitAt(t, t2, cur, t.init);
    assert i != cur ==> ExitAt(t, t2, cur, i);
    assert SamePid(t, i, cur) ==> i == cur;
    assert i != t.init && t.procs[i].state != UNUSED ==> !SamePid(t, i, t.init);
    var q, m := t.procs[i].parent, t.procs[i].maker;
    assert InTable(t.procs, q) && q != cur ==> ExitAt(t, t2, cur, q);
    assert InTable(t.procs, m) && m != cur ==> ExitAt(t, t2, cur, m);
  }

  /** Whoever now has a zombie child is awake: exit woke its parent, and init if it inherits zombies. */
  lemma ExitWakes(t: Table, t2: Table, cur: nat, i: nat)
    requires Exiting(t, t2, cur) && i < |t.procs|
    ensures NoSleepingParent(t2, i)
  {
    assert NoSleepingParent(t, i) && ShapeOk(t, cur) && ParentOk(t, cur);
    assert ExitAt(t, t2, cur, t.init);
    assert i != cur ==> ExitAt(t, t2, cur, i);
    var q := t2.procs[i].parent;
    assert InTable(t.procs, q) && q != cur ==> ExitAt(t, t2, cur, q);
    assert t.procs[i].state == ZOMBIE && t.procs[i].parent == cur ==>
             ZombieChild(t.procs[i], cur) && HasZombie(t.procs, cur);
  }

  lemma ExitHistory(t: Table, t2: Table, cur: nat)
    requires Exiting(t, t2, cur) && forall i: nat | i < |t.procs| :: PidHistory(t2, i)
    ensures HistoryOk(t2)
  {
    assert PidHistory(t, cur) && ShapeOk(t, cur) && ZombieOf(t2, cur, t.procs[cur].pid);
    forall x | x in t2.exited ensures x < t2.nextpid && (x in t2.reaped || exists i: nat :: ZombieOf(t2, i, x)) {
      if x in t.exited && x !in t.reaped {
        var i: nat :| ZombieOf(t, i, x);
        assert i != cur && ExitAt(t, t2, cur, i);
        assert ZombieOf(t2, i, x);
      }
    }
  }

  lemma ReapKeeps(t: Table, cur: nat, k: nat)
    requires Inv(t) && k < |t.procs| && ZombieChild(t.procs[k], cur)
    ensures Inv(Reap(t, k))
  {
    var t2, pid := Reap(t, k), t.procs[k].pid;
    assert ShapeOk(t, k) && ParentOk(t, k) && PidHistory(t, k);
    forall i: nat | i < |t.procs|
      ensures ShapeOk(t2, i) && ParentOk(t2, i) && NoSleepingParent(t2, i) && PidHistory(t2, i)
    {
      assert ShapeOk(t, i) && ParentOk(t, i) && PidHistory(t, i) && NoSleepingParent(t, i);
      assert SamePid(t, i, k) ==> i == k;
    }
    forall i: nat, j: nat | i < |t.procs| && j < |t.procs| && SamePid(t2, i, j) ensures i == j {
      assert SamePid(t, i, j);
    }
    forall x | x in t2.exited ensures x < t2.nextpid && (x in t2.reaped || exists i: nat :: ZombieOf(t2, i, x)) {
      if x !in t.reaped && x != pid {
        var i: nat :| ZombieOf(t, i, x);
        assert ZombieOf(t2, i, x);
      } else {
        assert x in t2.reaped;
      }
    }
  }

  lemma StepKeeps(t: Table, s: Step, t2: Table)
    requires Inv(t) && Next(t, s, t2)
    ensures Inv(t2)
  {
    match s
    case DoAlloc(cur, i) => AllocKeeps(t, cur, i);
    case DoFail(i) => EmbryoKeeps(t, t2, i, t2.procs[i]);
    case DoParent(i) => EmbryoKeeps(t, t2, i, t2.procs[i]);
    case DoStart(i) => EmbryoKeeps(t, t2, i, t2.procs[i]);
    case DoExit(cur) => ExitKeeps(t, cur);
    case DoReap(cur, i) => ReapKeeps(t, cur, i);
    case _ =>
      CalmStep(t, s, t2);
      CalmKeeps(t, t2);
  }

  /** The steps that leave the tree alone. */
  lemma CalmStep(t: Table, s: Step, t2: Table)
    requires Inv(t) && Next(t, s, t2)
    requires (s.DoDispatch? || s.DoYield? || s.DoTidy? || s.DoSleep? || s.DoWakeup? || s.DoKill? || s.DoWait?)
    ensures |t2.procs| == |t.procs| && t2 == t.(procs := t2.procs) && forall i: nat | i < |t.procs| :: CalmAt(t, t2, i)
  {
    forall i: nat | i < |t.procs| ensures i < |t2.procs| && CalmAt(t, t2, i) {
      assert ShapeOk(t, i);
    }
  }

  /** Every step does to the table what its field-by-field description says. */
  lemma StepEffect(t: Table, s: Step, t2: Table)
    requires Inv(t) && Next(t, s, t2)
    ensures Effect(t, s, t2)
  {
    hide PidHistory, NoSleepingParent, SamePid, HistoryOk;
    match s
    case DoAlloc(cur, i) => assert ShapeOk(t, i);
    case DoExit(cur) => ExitEffect(t, cur);
    case _ =>
  }

  lemma ExitEffect(t: Table, cur: nat)
    requires Inv(t) && Free(t, cur) && cur != t.init
    ensures Effect(t, DoExit(cur), Exit(t, cur))
  {
    hide Inv, Exit, Bereft;
    var t2 := Exit(t, cur);
    ExitSelf(t, cur);
    forall j: nat | j < |t.procs| && j != cur ensures Bereft(t, cur, t.procs[j], t2.procs[j]) {
      ExitSlot(t, cur, j);
    }
    assert t2.procs[cur] == t.procs[cur].(state := ZOMBIE);
  }

  lemma ExitSlot(t: Table, cur: nat, j: nat)
    requires Inv(t) && Free(t, cur) && cur != t.init && j < |t.procs| && j != cur
    ensures |Exit(t, cur).procs| == |t.procs| && Bereft(t, cur, t.procs[j], Exit(t, cur).procs[j])
  {
    assert t.procs[cur].parent >= 0 by {
      assert ShapeOk(t, cur) && ParentOk(t, cur);
    }
    ZombieMeans(t, cur);
    hide Inv, Free, HasZombie;
  }

  lemma ZombieMeans(t: Table, cur: nat)
    ensures HasZombie(t.procs, cur) <==>
            exists k | 0 <= k < |t.procs| :: t.procs[k].parent == cur && t.procs[k].state == ZOMBIE
  {
    if k :| 0 <= k < |t.procs| && t.procs[k].parent == cur && t.procs[k].state == ZOMBIE {
      assert ZombieChild(t.procs[k], cur);
    }
  }

  // ---- Who sleeps, over whole runs ----

  ghost predicate FallsAsleep(s: Step, i: nat, chan: Chan) {
    (s.DoSleep? && s.i == i && chan == Elsewhere(s.c)) || (s == DoWait(i) && chan == Slot(i))
  }

  ghost predicate WakesIt(t: Table, s: Step, i: nat, chan: Chan) {
    || (s.DoKill? && s.i == i)
    || (s.DoWakeup? && chan == Elsewhere(s.c))
    || (s.DoExit? && s.cur < |t.procs| && chan == Slot(i) && ToldOfExit(t, s.cur, i))
  }

  lemma SleepStep(t: Table, s: Step, t2: Table, i: nat, chan: Chan)
    requires Inv(t) && Next(t, s, t2) && i < |t.procs|
    ensures |t2.procs| == |t.procs|
    ensures SleepsOn(t2.procs[i], chan) <==>
            FallsAsleep(s, i, chan) || (SleepsOn(t.procs[i], chan) && !WakesIt(t, s, i, chan))
  {
    StepEffect(t, s, t2);
    hide Inv, Next;
    assert t.procs[i].chan.Slot? ==> t.procs[i].chan.i == i by {
      ChanIsOwn(t, i);
    }
    SleepEffect(t, s, t2, i, chan);
  }

  lemma ChanIsOwn(t: Table, i: nat)
    requires Inv(t) && i < |t.procs|
    ensures t.procs[i].chan.Slot? ==> t.procs[i].chan.i == i
  {
    assert ShapeOk(t, i);
  }

  lemma SleepEffect(t: Table, s: Step, t2: Table, i: nat, chan: Chan)
    requires Effect(t, s, t2) && i < |t.procs| && (t.procs[i].chan.Slot? ==> t.procs[i].chan.i == i)
    ensures |t2.procs| == |t.procs|
    ensures SleepsOn(t2.procs[i], chan) <==>
            FallsAsleep(s, i, chan) || (SleepsOn(t.procs[i], chan) && !WakesIt(t, s, i, chan))
  {
    hide ToldOfExit;
    match s
    case DoExit(cur) =>
      if i != cur {
        assert Bereft(t, cur, t.procs[i], t2.procs[i]);
      }
    case DoWakeup(c) => assert Roused(t.procs[i], t2.procs[i], Elsewhere(c));
    case _ =>
  }

  /** Asleep on chan since step m: it fell asleep there and nothing since has woken it. */
  ghost predicate SleepsSince(run: seq<Table>, steps: seq<Step>, m: nat, n: nat, i: nat, chan: Chan)
    requires n < |run| == |steps| + 1
  {
    && m < n && FallsAsleep(steps[m], i, chan)
    && forall j | m < j < n :: !WakesIt(run[j], steps[j], i, chan)
  }

  lemma BootSleeps(i: nat, chan: Chan)
    requires i < NPROC
    ensures |Boot().procs| == NPROC && !SleepsOn(Boot().procs[i], chan)
  {
  }

  /**
   Exactly who sleeps, in every run: a process that went to sleep on the channel and has since
   seen no kill, no wakeup of the channel and, in wait, no exit that concerns it.
   */
  lemma {:induction false} AsleepExactly(run: seq<Table>, steps: seq<Step>, n: nat, i: nat, chan: Chan)
    requires IsRun(run, steps) && n < |run| && i < NPROC
    ensures |run[n].procs| == NPROC
    ensures SleepsOn(run[n].procs[i], chan) <==> exists m: nat :: SleepsSince(run, steps, m, n, i, chan)
    decreases n
  {
    hide Inv, Next, SleepsOn, FallsAsleep, WakesIt, Boot;
    if n == 0 {
      BootSleeps(i, chan);
    } else {
      var p := n - 1;
      RunKeeps(run, steps);
      AsleepExactly(run, steps, p, i, chan);
      SleepStep(run[p], steps[p], run[n], i, chan);
      if SleepsOn(run[n].procs[i], chan) {
        if FallsAsleep(steps[p], i, chan) {
          assert SleepsSince(run, steps, p, n, i, chan);
        } else {
          var m: nat :| SleepsSince(run, steps, m, p, i, chan);
          assert SleepsSince(run, steps, m, n, i, chan);
        }
      }
      if m: nat :| SleepsSince(run, steps, m, n, i, chan) {
        if m < p {
          assert SleepsSince(run, steps, m, p, i, chan);
        }
      }
    }
  }

  /** From a kill that hits slot i until slot i itself calls sleep or wait, it is not asleep. */
  lemma {:induction false} KilledIsAwake(run: seq<Table>, steps: seq<Step>, m: nat, n: nat, i: nat)
    requires IsRun(run, steps) && m < n < |run| && i < NPROC
    requires steps[m].DoKill? && steps[m].i == i
    requires forall j | m < j < n :: !(steps[j].DoSleep? && steps[j].i == i) && steps[j] != DoWait(i)
    ensures |run[n].procs| == NPROC && run[n].procs[i].state != SLEEPING
  {
    AsleepExactly(run, steps, n, i, NoChan);
    var chan := run[n].procs[i].chan;
    AsleepExactly(run, steps, n, i, chan);
    forall k: nat ensures !SleepsSince(run, steps, k, n, i, chan) {
      NotSince(run, steps, k, m, n, i, chan);
    }
  }

  lemma NotSince(run: seq<Table>, steps: seq<Step>, k: nat, m: nat, n: nat, i: nat, chan: Chan)
    requires m < n < |run| == |steps| + 1 && steps[m].DoKill? && steps[m].i == i
    requires forall j | m < j < n :: !(steps[j].DoSleep? && steps[j].i == i) && steps[j] != DoWait(i)
    ensures !SleepsSince(run, steps, k, n, i, chan)
  {
    assert WakesIt(run[m], steps[m], i, chan);
  }

  /** The table that userinit leaves: one process, init. */
  function Boot(): Table {
    var first, unused := Proc(RUNNABLE, 1, -1, NoChan, false, -1), Proc(UNUSED, 0, -1, NoChan, false, -1);
    Table(seq(NPROC, i => if i == 0 then first else unused), 2, 0, [], [])
  }

  lemma BootOk()
    ensures Inv(Boot())
  {
  }

  ghost predicate IsRun(run: seq<Table>, steps: seq<Step>) {
    |run| == |steps| + 1 && run[0] == Boot() && forall i | 0 <= i < |steps| :: Next(run[i], steps[i], run[i + 1])
  }

  /** Safety over whole runs: every reachable table satisfies the invariant. */
  lemma {:induction false} RunKeeps(run: seq<Table>, steps: seq<Step>)
    requires IsRun(run, steps)
    ensures forall i | 0 <= i < |run| :: Inv(run[i])
    decreases |steps|
  {
    BootOk();
    if |steps| > 0 {
      var n := |steps| - 1;
      RunKeeps(run[..|run| - 1], steps[..n]);
      assert run[..|run| - 1][n] == run[n];
      StepKeeps(run[n], steps[n], run[n + 1]);
      forall i | 0 <= i < |run| ensures Inv(run[i]) {
        if i < |run| - 1 {
          assert run[..|run| - 1][i] == run[i];
        }
      }
    }
  }

  // ---- What the invariant means ----

  ghost predicate ParentPath(t: Table, path: seq<nat>) {
    |path| > 0 && forall k | 0 <= k < |path| - 1 :: IsParent(t, path[k], path[k + 1])
  }

  ghost predicate IsParent(t: Table, i: nat, j: nat) {
    i < |t.procs| && j < |t.procs| && t.procs[i].parent == j && t.procs[j].pid < t.procs[i].pid
  }

  /** From every process, following parents leads to init, over ever smaller pids. */
  lemma {:induction false} ReachesInit(t: Table, i: nat) returns (path: seq<nat>)
    requires Inv(t) && i < |t.procs| && (Live(t.procs[i]) || t.procs[i].state == ZOMBIE)
    ensures ParentPath(t, path) && path[0] == i && path[|path| - 1] == t.init
    decreases t.procs[i].pid
  {
    if i == t.init {
      path := [i];
    } else {
      assert ShapeOk(t, i) && ParentOk(t, i);
      var rest := ReachesInit(t, t.procs[i].parent);
      path := [i] + rest;
      forall k | 0 <= k < |path| - 1 ensures IsParent(t, path[k], path[k + 1]) {
        if k > 0 {
          assert path[k] == rest[k - 1] && path[k + 1] == rest[k - 1 + 1];
        }
      }
    }
  }

  /** No process points to a slot that was given up, and no zombie waits for a sleeping parent. */
  lemma TreeIsSound(t: Table, i: nat)
    requires Inv(t) && i < |t.procs| && t.procs[i].parent != -1
    ensures InTable(t.procs, t.procs[i].parent) && t.procs[t.procs[i].parent].state != ZOMBIE
    ensures t.procs[t.procs[i].parent].state != UNUSED
    ensures t.procs[i].state == ZOMBIE ==> !SleepsOn(t.procs[t.procs[i].parent], Slot(t.procs[i].parent))
  {
    assert ParentOk(t, i) && NoSleepingParent(t, i);
  }

  /** A pid is among the results of wait at most once, after its exit, and no slot carries it any more. */
  lemma ReapedOnce(t: Table, pid: nat, i: nat)
    requires Inv(t) && pid in t.reaped && i < |t.procs|
    ensures multiset(t.reaped)[pid] == 1 && pid in t.exited && (t.procs[i].state != UNUSED ==> t.procs[i].pid != pid)
  {
    CountedOnce(t.reaped, pid);
    assert PidHistory(t, i);
  }

  lemma {:induction false} CountedOnce(s: seq<nat>, x: nat)
    requires Distinct(s)
    ensures multiset(s)[x] == if x in s then 1 else 0
    decreases |s|
  {
    if s != [] {
      var n := |s| - 1;
      assert s == s[..n] + [s[n]];
      assert forall i | 0 <= i < n :: s[..n][i] == s[i];
      CountedOnce(s[..n], x);
      assert multiset(s) == multiset(s[..n]) + multiset{s[n]};
      if x in s[..n] {
        var k :| 0 <= k < n && s[k] == x;
        assert s[k] != s[n];
      }
    }
  }

  // ---- What kill reaches ----

  /** Some process, from its creation to its reaping, has this pid. */
  ghost predicate IsProcess(t: Table, pid: nat) {
    exists i | 0 <= i < |t.procs| :: t.procs[i].state != UNUSED && t.procs[i].pid == pid
  }

  /**
   kill looks at pids only. The slot it finds is that of the process, if there is one, and an
   unused slot exactly if there is none.
   */
  lemma KillHitsProcessExactly(t: Table, pid: nat, i: nat)
    requires Inv(t) && FirstPid(t.procs, i, pid)
    ensures t.procs[i].state != UNUSED <==> IsProcess(t, pid)
  {
    if IsProcess(t, pid) {
      var j :| 0 <= j < |t.procs| && t.procs[j].state != UNUSED && t.procs[j].pid == pid;
      assert ShapeOk(t, j) && SamePid(t, i, j);
    }
  }

  /** Since step m slot i was neither reaped nor, if alloc is set, handed out. */
  ghost predicate Untouched(steps: seq<Step>, m: nat, n: nat, i: nat, alloc: bool) {
    forall j: nat | m < j < n && j < |steps| ::
        !(steps[j].DoReap? && steps[j].i == i) && !(alloc && steps[j].DoAlloc? && steps[j].i == i)
  }

  ghost predicate AbandonedAt(steps: seq<Step>, m: nat, n: nat, i: nat) {
    m < n && m < |steps| && steps[m] == DoFail(i) && Untouched(steps, m, n, i, true)
  }

  ghost predicate KilledAt(steps: seq<Step>, m: nat, n: nat, i: nat) {
    m < n && m < |steps| && steps[m].DoKill? && steps[m].i == i && Untouched(steps, m, n, i, false)
  }

  /** What a step does to the killed flag and the pid of a slot. */
  lemma SlotStep(t: Table, s: Step, t2: Table, i: nat)
    requires Inv(t) && Next(t, s, t2) && i < |t.procs|
    ensures |t2.procs| == |t.procs|
    ensures t2.procs[i].killed <==> (s.DoKill? && s.i == i) || (t.procs[i].killed && !(s.DoReap? && s.i == i))
    ensures t2.procs[i].state == UNUSED <==> (s == DoFail(i)) || (s.DoReap? && s.i == i)
                                             || (t.procs[i].state == UNUSED && !(s.DoAlloc? && s.i == i))
    ensures !(s.DoReap? && s.i == i) && !(s.DoAlloc? && s.i == i) ==> t2.procs[i].pid == t.procs[i].pid
    ensures s.DoReap? && s.i == i ==> t2.procs[i].pid == 0
    ensures s == DoFail(i) ==> t2.procs[i].pid != 0
  {
    StepEffect(t, s, t2);
    assert s == DoFail(i) ==> t.procs[i].pid != 0 by {
      assert ShapeOk(t, i);
    }
    hide Inv, Next;
    if s.DoExit? {
      assert i != s.cur ==> Bereft(t, s.cur, t.procs[i], t2.procs[i]);
    } else if s.DoWakeup? {
      assert Roused(t.procs[i], t2.procs[i], Elsewhere(s.c));
    }
  }

  /**
   Exactly which unused slots keep a pid: those of a fork that was abandoned and not followed by
   another. The rest have pid 0.
   */
  lemma {:induction false} StalePidExactly(run: seq<Table>, steps: seq<Step>, n: nat, i: nat)
    requires IsRun(run, steps) && n < |run| && i < NPROC
    ensures |run[n].procs| == NPROC
    ensures run[n].procs[i].state == UNUSED ==>
              (run[n].procs[i].pid != 0 <==> exists m: nat :: AbandonedAt(steps, m, n, i))
    decreases n
  {
    RunKeeps(run, steps);
    if n > 0 {
      var p, s := n - 1, steps[n - 1];
      StalePidExactly(run, steps, p, i);
      assert Next(run[p], s, run[p + 1]);
      SlotStep(run[p], s, run[n], i);
      if run[n].procs[i].state == UNUSED {
        LastAbandoned(steps, p, n, i);
      }
    }
  }

  lemma LastAbandoned(steps: seq<Step>, p: nat, n: nat, i: nat)
    requires n == p + 1 <= |steps|
    ensures var s := steps[p];
            (exists m: nat :: AbandonedAt(steps, m, n, i)) <==>
            s == DoFail(i)
            || (!(s.DoReap? && s.i == i) && !(s.DoAlloc? && s.i == i) && exists m: nat :: AbandonedAt(steps, m, p, i))
  {
    if m: nat :| AbandonedAt(steps, m, n, i) {
      if m < p {
        assert AbandonedAt(steps, m, p, i);
      }
    }
    if steps[p] == DoFail(i) {
      assert AbandonedAt(steps, p, n, i);
    }
    if m: nat :| AbandonedAt(steps, m, p, i) {
      assert !(steps[p].DoReap? && steps[p].i == i) && !(steps[p].DoAlloc? && steps[p].i == i) ==>
               AbandonedAt(steps, m, n, i);
    }
  }

  /**
   Exactly which slots carry the killed flag, in every state of every run: those that kill hit
   since they were last reaped.
   */
  lemma {:induction false} KilledExactly(run: seq<Table>, steps: seq<Step>, n: nat, i: nat)
    requires IsRun(run, steps) && n < |run| && i < NPROC
    ensures |run[n].procs| == NPROC && (run[n].procs[i].killed <==> exists m: nat :: KilledAt(steps, m, n, i))
    decreases n
  {
    RunKeeps(run, steps);
    if n > 0 {
      var p := n - 1;
      KilledExactly(run, steps, p, i);
      assert Next(run[p], steps[p], run[p + 1]);
      SlotStep(run[p], steps[p], run[n], i);
      LastKilled(steps, p, n, i);
    }
  }

  lemma LastKilled(steps: seq<Step>, p: nat, n: nat, i: nat)
    requires n == p + 1 <= |steps|
    ensures var s := steps[p];
            (exists m: nat :: KilledAt(steps, m, n, i)) <==>
            (s.DoKill? && s.i == i) || (!(s.DoReap? && s.i == i) && exists m: nat :: KilledAt(steps, m, p, i))
  {
    if m: nat :| KilledAt(steps, m, n, i) {
      if m < p {
        assert KilledAt(steps, m, p, i);
      }
    }
    if steps[p].DoKill? && steps[p].i == i {
      assert KilledAt(steps, p, n, i);
    }
    if m: nat :| KilledAt(steps, m, p, i) {
      assert !(steps[p].DoReap? && steps[p].i == i) ==> KilledAt(steps, m, n, i);
    }
  }

  /** A slot that held a started process is free again only after it was reaped. */
  lemma {:induction false} StartedUntilReaped(run: seq<Table>, steps: seq<Step>, m: nat, n: nat, i: nat)
    requires IsRun(run, steps) && m <= n < |run| && i < NPROC && |run[m].procs| == NPROC
    requires (Live(run[m].procs[i]) || run[m].procs[i].state == ZOMBIE)
    requires forall j: nat | m <= j < n :: !(steps[j].DoReap? && steps[j].i == i)
    ensures |run[n].procs| == NPROC && (Live(run[n].procs[i]) || run[n].procs[i].state == ZOMBIE)
    decreases n
  {
    RunKeeps(run, steps);
    if m < n {
      var p := n - 1;
      StartedUntilReaped(run, steps, m, p, i);
      assert Next(run[p], steps[p], run[p + 1]);
      StartedStep(run[p], steps[p], run[n], i);
    }
  }

  lemma StartedStep(t: Table, s: Step, t2: Table, i: nat)
    requires Inv(t) && Next(t, s, t2) && i < |t.procs| && (Live(t.procs[i]) || t.procs[i].state == ZOMBIE)
    requires !(s.DoReap? && s.i == i)
    ensures |t2.procs| == |t.procs| && (Live(t2.procs[i]) || t2.procs[i].state == ZOMBIE)
  {
    if s.DoExit? {
      assert ShapeOk(t, s.cur) && ParentOk(t, s.cur);
    }
  }

  /**
   Exactly when a new process starts killed, because allocproc leaves the flag: when since the
   last reaping of its slot kill hit it, unused or held by a fork that was abandoned later.
   */
  lemma BornKilledExactly(run: seq<Table>, steps: seq<Step>, n: nat, cur: nat, i: nat)
    requires IsRun(run, steps) && n < |steps| && steps[n] == DoAlloc(cur, i)
    ensures i < NPROC && |run[n + 1].procs| == NPROC
    ensures run[n + 1].procs[i].killed <==> exists m: nat :: KilledAt(steps, m, n, i)
    ensures forall m: nat | KilledAt(steps, m, n, i) ::
              |run[m].procs| == NPROC && (run[m].procs[i].state == UNUSED || run[m].procs[i].state == EMBRYO)
  {
    RunKeeps(run, steps);
    assert Next(run[n], steps[n], run[n + 1]) && i < |run[n].procs|;
    SlotStep(run[n], steps[n], run[n + 1], i);
    KilledExactly(run, steps, n, i);
    forall m: nat | KilledAt(steps, m, n, i)
      ensures |run[m].procs| == NPROC && (run[m].procs[i].state == UNUSED || run[m].procs[i].state == EMBRYO)
    {
      HitBeforeStart(run, steps, m, n, i);
    }
  }

  lemma HitBeforeStart(run: seq<Table>, steps: seq<Step>, m: nat, n: nat, i: nat)
    requires IsRun(run, steps) && n < |run| && i < NPROC && |run[n].procs| == NPROC && run[n].procs[i].state == UNUSED
    requires KilledAt(steps, m, n, i)
    ensures |run[m].procs| == NPROC && (run[m].procs[i].state == UNUSED || run[m].procs[i].state == EMBRYO)
  {
    RunKeeps(run, steps);
    if Live(run[m].procs[i]) || run[m].procs[i].state == ZOMBIE {
      StartedUntilReaped(run, steps, m, n, i);
    }
  }

  /** kill(0) reaches an unused slot that was never used or was reaped, and so the next process in it. */
  lemma KillZeroReachesNextChild(t: Table, cur: nat, k: nat)
    requires Inv(t) && Free(t, cur) && FirstUnused(t.procs, k) && t.procs[k].pid == 0
    ensures var t1 := t.(procs := t.procs[k := Killed(t.procs[k])]);
            Next(t, DoKill(0, k), t1) && Next(t1, DoAlloc(cur, k), Allocated(t1, k, cur))
            && Allocated(t1, k, cur).procs[k].killed
  {
    forall j: nat | 0 <= j < k ensures t.procs[j].pid != 0 {
      assert ShapeOk(t, j);
    }
  }

  /** So does kill with the pid of a fork that failed: that pid was never a running process's. */
  lemma StalePidReachesNextChild(t: Table, cur: nat, k: nat)
    requires Inv(t) && Free(t, cur) && FirstUnused(t.procs, k)
    ensures var t1 := Allocated(t, k, cur);
            var t2 := t1.(procs := t1.procs[k := t1.procs[k].(state := UNUSED)]);
            var t3 := t2.(procs := t2.procs[k := Killed(t2.procs[k])]);
            && Next(t, DoAlloc(cur, k), t1) && Next(t1, DoFail(k), t2) && Next(t2, DoKill(t.nextpid, k), t3)
            && !IsProcess(t2, t.nextpid)
            && Next(t3, DoAlloc(cur, k), Allocated(t3, k, cur)) && Allocated(t3, k, cur).procs[k].killed
  {
    assert ShapeOk(t, k);
    forall j: nat | j < |t.procs| ensures t.procs[j].pid < t.nextpid {
      assert ShapeOk(t, j);
    }
  }

  /** And kill of a fork in progress that is abandoned afterwards. */
  lemma KilledForkReachesNextChild(t: Table, cur: nat, k: nat)
    requires Inv(t) && Free(t, cur) && FirstUnused(t.procs, k)
    ensures var t1 := Allocated(t, k, cur);
            var t2 := t1.(procs := t1.procs[k := Killed(t1.procs[k])]);
            var t3 := t2.(procs := t2.procs[k := t2.procs[k].(state := UNUSED)]);
            && Next(t, DoAlloc(cur, k), t1) && Next(t1, DoKill(t.nextpid, k), t2) && Next(t2, DoFail(k), t3)
            && Next(t3, DoAlloc(cur, k), Allocated(t3, k, cur)) && Allocated(t3, k, cur).procs[k].killed
  {
    assert ShapeOk(t, k);
    forall j: nat | j < |t.procs| ensures t.procs[j].pid < t.nextpid {
      assert ShapeOk(t, j);
    }
  }
}
