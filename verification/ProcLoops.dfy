/** The table-scanning loops of proc.c, proved to perform the steps of ProcTable. */
module ProcLoops {
  import opened ProcTable

  datatype WaitResult = Reaped(pid: nat) | NoChild | Sleeping

  class PTable {
    var procs: seq<Proc>
    var nextpid: nat
    const init: nat
    ghost var exited: seq<nat>
    ghost var reaped: seq<nat>

    ghost function T(): Table
      reads this
    {
      Table(procs, nextpid, init, exited, reaped)
    }

    ghost predicate Valid()
      reads this
    {
      Inv(T())
    }

    constructor ()
      ensures Valid() && T() == Boot() && nextpid == 2 && |procs| == 64
      ensures procs[0].state == RUNNABLE && procs[0].pid == 1 && procs[0].parent == -1
      ensures forall i | 1 <= i < 64 :: procs[i].state == UNUSED && procs[i].pid == 0 && !procs[i].killed
    {
      procs, nextpid, init, exited, reaped := Boot().procs, 2, 0, [], [];
      BootOk();
    }

    /** wakeup1 */
    method Wakeup1(chan: Chan)
      modifies this`procs
      ensures procs == Wake(old(procs), chan)
      ensures |procs| == |old(procs)| && forall j | 0 <= j < |procs| :: Roused(old(procs)[j], procs[j], chan)
    {
      var i := 0;
      while i < |procs|
        invariant 0 <= i <= |procs| == |old(procs)|
        invariant forall j | 0 <= j < |procs| :: procs[j] == if j < i then Woken(old(procs)[j], chan) else old(procs)[j]
      {
        if procs[i].state == SLEEPING && procs[i].chan == chan {
          procs := procs[i := procs[i].(state := RUNNABLE)];
        }
        i := i + 1;
      }
    }

    /** allocproc's scan; -1 if the table is full. */
    method AllocProc(cur: nat) returns (i: int)
      requires Valid() && Free(T(), cur)
      modifies this
      ensures Valid()
      ensures i == -1 ==> T() == old(T()) && forall j | 0 <= j < NPROC :: procs[j].state != UNUSED
      ensures i != -1 ==> forall j | 0 <= j < i && j < |old(procs)| :: old(procs)[j].state != UNUSED
      ensures i != -1 ==> i >= 0 && Next(old(T()), DoAlloc(cur, i), T()) && Effect(old(T()), DoAlloc(cur, i), T())
    {
      i := 0;
      while i < NPROC
        invariant 0 <= i <= NPROC && T() == old(T()) && forall j | 0 <= j < i :: procs[j].state != UNUSED
      {
        if procs[i].state == UNUSED {
          AllocKeeps(T(), cur, i);
          procs := procs[i := procs[i].(state := EMBRYO, pid := nextpid, maker := cur)];
          nextpid := nextpid + 1;
          StepEffect(old(T()), DoAlloc(cur, i), T());
          return;
        }
        i := i + 1;
      }
      i := -1;
    }

    /** fork after copyuvm failed, and allocproc after kalloc failed. */
    method AbandonEmbryo(i: nat)
      requires Valid() && i < NPROC && procs[i].state == EMBRYO && procs[i].parent == -1
      modifies this
      ensures Valid() && Next(old(T()), DoFail(i), T()) && Effect(old(T()), DoFail(i), T())
    {
      EmbryoKeeps(T(), T().(procs := procs[i := procs[i].(state := UNUSED)]), i, procs[i].(state := UNUSED));
      procs := procs[i := procs[i].(state := UNUSED)];
    }

    /** The rest of fork. */
    method StartChild(i: nat, cur: nat) returns (pid: nat)
      requires Valid() && i < NPROC && procs[i].state == EMBRYO && procs[i].maker == cur
      modifies this
      ensures Valid() && pid == old(procs)[i].pid
      ensures procs == old(procs)[i := old(procs)[i].(parent := cur, state := RUNNABLE)]
      ensures nextpid == old(nextpid) && exited == old(exited) && reaped == old(reaped)
    {
      assert ShapeOk(T(), i);
      EmbryoKeeps(T(), T().(procs := procs[i := procs[i].(parent := cur)]), i, procs[i].(parent := cur));
      procs := procs[i := procs[i].(parent := cur)];
      pid := procs[i].pid;
      EmbryoKeeps(T(), T().(procs := procs[i := procs[i].(state := RUNNABLE)]), i, procs[i].(state := RUNNABLE));
      procs := procs[i := procs[i].(state := RUNNABLE)];
    }

    /** exit from the acquire on: wake the parent, hand the children to init, become a zombie. */
    method ExitProc(cur: nat)
      requires Valid() && Free(T(), cur) && cur != init
      modifies this
      ensures Valid() && Next(old(T()), DoExit(cur), T()) && Effect(old(T()), DoExit(cur), T())
    {
      ghost var t0 := T();
      ExitKeeps(t0, cur);
      ExitEffect(t0, cur);
      assert ShapeOk(t0, cur) && ParentOk(t0, cur);
      Wakeup1(Slot(procs[cur].parent));
      HandOver(cur);
      ghost var pid := procs[cur].pid;
      procs := procs[cur := procs[cur].(state := ZOMBIE)];
      exited := exited + [pid];
    }

    /** The loop that passes abandoned children to init. */
    method HandOver(cur: nat)
      modifies this`procs
      ensures procs == (if HasZombie(old(procs), cur) then Wake(Adopt(old(procs), cur, init), Slot(init))
                        else Adopt(old(procs), cur, init))
    {
      ghost var p0 := procs;
      ghost var told := false;
      var i := 0;
      while i < |procs|
        invariant 0 <= i <= |procs| == |p0|
        invariant told <==> HasZombie(p0[..i], cur)
        invariant forall j | 0 <= j < |procs| :: procs[j] == Handed(p0[j], cur, init, j < i, told)
      {
        assert p0[..i + 1] == p0[..i] + [p0[i]];
        ghost var told2 := told || ZombieChild(p0[i], cur);
        assert HasZombie(p0[..i + 1], cur) <==> told2 by {
          ZombieMore(p0, i, cur);
        }
        if procs[i].parent == cur {
          procs := procs[i := procs[i].(parent := init)];
          if procs[i].state == ZOMBIE {
            Wakeup1(Slot(init));
          }
        }
        told := told2;
        i := i + 1;
      }
      assert p0[..i] == p0;
    }

    /** One pass of wait's loop: reap a zombie child, give up, or go to sleep. */
    method WaitOnce(cur: nat) returns (r: WaitResult)
      requires Valid() && Free(T(), cur)
      modifies this
      ensures Valid()
      ensures r.Reaped? ==> exists i: nat ::
                Next(old(T()), DoReap(cur, i), T()) && Effect(old(T()), DoReap(cur, i), T())
                && r.pid == old(procs)[i].pid
                && forall j | 0 <= j < i :: !(old(procs)[j].parent == cur && old(procs)[j].state == ZOMBIE)
      ensures r == NoChild ==> T() == old(T()) && !HasZombie(procs, cur)
      ensures r == NoChild ==> (procs[cur].killed || forall j | 0 <= j < NPROC :: procs[j].parent != cur)
      ensures r == Sleeping ==> Next(old(T()), DoWait(cur), T()) && SleepsNow(old(T()), T(), cur, Slot(cur))
      ensures r == Sleeping ==> !old(procs)[cur].killed
      ensures r == Sleeping ==> exists j | 0 <= j < NPROC :: old(procs)[j].parent == cur
    {
      ghost var t0 := T();
      assert |procs| == NPROC;
      hide Inv, Effect, SleepsNow;
      var i, havekids := 0, false;
      while i < NPROC
        invariant 0 <= i <= NPROC && T() == t0 && forall j | 0 <= j < i :: !ZombieChild(procs[j], cur)
        invariant havekids <==> exists j | 0 <= j < i :: procs[j].parent == cur
      {
        if procs[i].parent == cur {
          havekids := true;
          if procs[i].state == ZOMBIE {
            var pid := procs[i].pid;
            ReapKeeps(t0, cur, i);
            procs := procs[i := procs[i].(pid := 0, parent := -1, killed := false, state := UNUSED)];
            reaped := reaped + [pid];
            assert Next(t0, DoReap(cur, i), T());
            StepEffect(t0, DoReap(cur, i), T());
            return Reaped(pid);
          }
        }
        i := i + 1;
      }
      if !havekids || procs[cur].killed {
        return NoChild;
      }
      procs := procs[cur := procs[cur].(chan := Slot(cur), state := SLEEPING)];
      assert Next(t0, DoWait(cur), T());
      StepKeeps(t0, DoWait(cur), T());
      WaitSleeps(t0, T(), cur);
      r := Sleeping;
    }

    /** kill: the first slot with the pid is marked, and woken if it sleeps; false if there is none. */
    method Kill(pid: nat) returns (ok: bool)
      requires Valid()
      modifies this`procs
      ensures Valid() && (ok <==> exists i | 0 <= i < NPROC :: old(procs)[i].pid == pid)
      ensures ok ==> exists i: nat ::
                && Next(old(T()), DoKill(pid, i), T())
                && i < |procs| == |old(procs)| && old(procs)[i].pid == pid && Hit(old(procs)[i], procs[i])
                && (forall j | 0 <= j < i :: old(procs)[j].pid != pid)
                && forall j | 0 <= j < |procs| && j != i :: procs[j] == old(procs)[j]
      ensures !ok ==> T() == old(T())
    {
      ghost var t0 := T();
      var i := 0;
      while i < NPROC
        invariant 0 <= i <= NPROC && T() == t0 && forall j | 0 <= j < i :: procs[j].pid != pid
      {
        if procs[i].pid == pid {
          procs := procs[i := procs[i].(killed := true)];
          if procs[i].state == SLEEPING {
            procs := procs[i := procs[i].(state := RUNNABLE)];
          }
          assert T().procs == t0.procs[i := Killed(t0.procs[i])];
          StepKeeps(t0, DoKill(pid, i), T());
          return true;
        }
        i := i + 1;
      }
      ok := false;
    }
  }

  ghost function Handed(p: Proc, cur: int, init: nat, seen: bool, told: bool): Proc {
    var q := if seen then Adopted(p, cur, init) else p;
    if told then Woken(q, Slot(init)) else q
  }

  lemma WaitSleeps(t: Table, t2: Table, cur: nat)
    requires Inv(t) && Next(t, DoWait(cur), t2)
    ensures SleepsNow(t, t2, cur, Slot(cur))
  {
    StepEffect(t, DoWait(cur), t2);
  }

  lemma ZombieMore(procs: seq<Proc>, i: nat, cur: int)
    requires i < |procs|
    ensures HasZombie(procs[..i + 1], cur) <==> HasZombie(procs[..i], cur) || ZombieChild(procs[i], cur)
  {
    if HasZombie(procs[..i], cur) {
      var j :| 0 <= j < i && ZombieChild(procs[..i][j], cur);
      assert procs[..i + 1][j] == procs[..i][j];
    }
    if ZombieChild(procs[i], cur) {
      assert procs[..i + 1][i] == procs[i];
    }
  }
}
