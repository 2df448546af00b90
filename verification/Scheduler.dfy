/**
 The multi-level scheduler on one CPU: level_finder with aging, round_robin, lottery and BJF.

 What running processes and interrupt handlers do to the table is a parameter: any function
 that leaves the processes waiting for the CPU as they are. level_change is not part of it.
 */
module Scheduler {

  const MAX_WAITING_TIME: int := 10000

  datatype Proc = Proc(runnable: bool, level: int, waited: int, tickets: int)

  /** What happens while process i runs, or (i == |procs|) while none does; k tells the occasions apart. */
  type World = (nat, seq<Proc>, nat) -> seq<Proc>

  /** Only level 1 is dispatched, so only there can waited fall below zero. */
  ghost predicate SlotOk(p: Proc) {
    (p.runnable ==> 1 <= p.level <= 3) && p.waited < MAX_WAITING_TIME && (p.level == 1 || 0 <= p.waited)
  }

  ghost predicate Ok(procs: seq<Proc>) {
    forall i | 0 <= i < |procs| :: SlotOk(procs[i])
  }

  /** Whoever waits for the CPU is left alone; everything else may change, within bounds. */
  ghost predicate Leaves(before: seq<Proc>, after: seq<Proc>) {
    && |after| == |before| && Ok(after)
    && forall j | 0 <= j < |before| :: before[j].runnable ==> after[j] == before[j]
  }

  ghost predicate WorldOk(w: World) {
    forall k: nat, procs: seq<Proc>, i: nat | Ok(procs) :: Leaves(procs, w(k, procs, i))
  }

  // ---- level_finder ----

  function Aged(p: Proc): Proc {
    if !p.runnable then p
    else if p.waited + 1 >= MAX_WAITING_TIME then p.(level := 1, waited := 0)
    else p.(waited := p.waited + 1)
  }

  function Age(procs: seq<Proc>): (r: seq<Proc>)
    ensures |r| == |procs| && forall i | 0 <= i < |procs| :: r[i] == Aged(procs[i])
  {
    seq(|procs|, i requires 0 <= i < |procs| => Aged(procs[i]))
  }

  ghost predicate Waiting(procs: seq<Proc>, level: int) {
    exists i | 0 <= i < |procs| :: procs[i].runnable && procs[i].level == level
  }

  ghost predicate AnyWaiting(procs: seq<Proc>) {
    exists i | 0 <= i < |procs| :: procs[i].runnable
  }

  /** The level served next: the best level with a waiting process, 4 if nobody waits. */
  ghost function Served(procs: seq<Proc>): int {
    if !AnyWaiting(procs) then 4
    else if Waiting(procs, 1) then 1
    else if Waiting(procs, 2) then 2
    else 3
  }

  /** Somebody waits at this level, and nobody at a smaller one. */
  ghost predicate Best(procs: seq<Proc>, level: int) {
    && (exists i | 0 <= i < |procs| :: procs[i].runnable && procs[i].level == level)
    && forall i | 0 <= i < |procs| && procs[i].runnable :: level <= procs[i].level
  }

  lemma ServedIsBest(procs: seq<Proc>, level: int)
    requires Ok(procs)
    ensures Served(procs) == 4 <==> forall i | 0 <= i < |procs| :: !procs[i].runnable
    ensures 1 <= level <= 3 ==> (Served(procs) == level <==> Best(procs, level))
    ensures 1 <= Served(procs) <= 4
  {
    assert forall i | 0 <= i < |procs| :: SlotOk(procs[i]);
  }

  /** What level_finder does to a slot: whoever waits has waited one longer, and starts over at level 1 once of age. */
  ghost predicate AgedTo(p: Proc, q: Proc) {
    && q.runnable == p.runnable && q.tickets == p.tickets
    && (if !p.runnable then q.level == p.level && q.waited == p.waited
        else if p.waited + 1 < MAX_WAITING_TIME then q.level == p.level && q.waited == p.waited + 1
        else q.level == 1 && q.waited == 0)
  }

  // ---- round_robin ----

  function Dispatched(p: Proc): Proc {
    p.(runnable := false, waited := p.waited - 1)
  }

  /** From slot i on, every waiting level-1 process runs in turn; the list says who ran. */
  function RoundRobin(w: World, k: nat, procs: seq<Proc>, i: nat): (r: (seq<Proc>, seq<nat>))
    decreases |procs| - i, 1
  {
    if i >= |procs| then (procs, [])
    else if !procs[i].runnable || procs[i].level != 1 then RoundRobin(w, k, procs, i + 1)
    else
      var after := w(k, procs[i := Dispatched(procs[i])], i);
      if |after| != |procs| then (after, [i])
      else
        var (rest, ran) := RoundRobin(w, k, after, i + 1);
        (rest, [i] + ran)
  }

  lemma {:induction false} RoundRobinOk(w: World, k: nat, procs: seq<Proc>, i: nat)
    requires WorldOk(w) && Ok(procs) && i <= |procs|
    ensures Ok(RoundRobin(w, k, procs, i).0) && |RoundRobin(w, k, procs, i).0| == |procs|
    decreases |procs| - i
  {
    if i < |procs| {
      if !procs[i].runnable || procs[i].level != 1 {
        RoundRobinOk(w, k, procs, i + 1);
      } else {
        var running := procs[i := Dispatched(procs[i])];
        assert Ok(running) && Leaves(running, w(k, running, i));
        RoundRobinOk(w, k, w(k, running, i), i + 1);
      }
    }
  }

  /** A waiting level-1 process further on gets its turn; any other waiting process stays as it is. */
  lemma {:induction false} GetsTurn(w: World, k: nat, procs: seq<Proc>, i: nat, x: nat)
    requires WorldOk(w) && Ok(procs) && i <= x < |procs| && procs[x].runnable
    ensures procs[x].level == 1 ==> x in RoundRobin(w, k, procs, i).1
    ensures procs[x].level != 1 ==> x !in RoundRobin(w, k, procs, i).1
    ensures procs[x].level != 1 ==> |RoundRobin(w, k, procs, i).0| == |procs|
    ensures procs[x].level != 1 ==> RoundRobin(w, k, procs, i).0[x] == procs[x]
    decreases |procs| - i
  {
    RoundRobinOk(w, k, procs, i);
    if !procs[i].runnable || procs[i].level != 1 {
      if i < x {
        GetsTurn(w, k, procs, i + 1, x);
      } else {
        StaysPut(w, k, procs, i + 1, x);
      }
    } else {
      var running := procs[i := Dispatched(procs[i])];
      assert Ok(running) && Leaves(running, w(k, running, i));
      if i < x {
        GetsTurn(w, k, w(k, running, i), i + 1, x);
      }
    }
  }

  /** Slots before i that wait are not touched. */
  lemma {:induction false} StaysPut(w: World, k: nat, procs: seq<Proc>, i: nat, x: nat)
    requires WorldOk(w) && Ok(procs) && x < i <= |procs| && procs[x].runnable
    ensures x !in RoundRobin(w, k, procs, i).1
    ensures |RoundRobin(w, k, procs, i).0| == |procs| && RoundRobin(w, k, procs, i).0[x] == procs[x]
    decreases |procs| - i
  {
    if i < |procs| {
      if !procs[i].runnable || procs[i].level != 1 {
        StaysPut(w, k, procs, i + 1, x);
      } else {
        var running := procs[i := Dispatched(procs[i])];
        assert Ok(running) && Leaves(running, w(k, running, i));
        StaysPut(w, k, w(k, running, i), i + 1, x);
      }
    }
  }

  ghost predicate Rising(ran: seq<nat>, lo: nat, hi: nat) {
    && (forall a | 0 <= a < |ran| :: lo <= ran[a] < hi)
    && forall a, b | 0 <= a < b < |ran| :: ran[a] < ran[b]
  }

  lemma RisingCons(i: nat, rest: seq<nat>, hi: nat)
    requires Rising(rest, i + 1, hi) && i < hi
    ensures Rising([i] + rest, i, hi)
  {
    var ran := [i] + rest;
    forall a, b | 0 <= a < b < |ran| ensures ran[a] < ran[b] {
      assert ran[b] == rest[b - 1] && (a > 0 ==> ran[a] == rest[a - 1]);
    }
  }

  /** The turns of one round are taken in slot order, each process at most once. */
  lemma {:induction false} TurnsInOrder(w: World, k: nat, procs: seq<Proc>, i: nat)
    requires WorldOk(w) && Ok(procs) && i <= |procs|
    ensures Rising(RoundRobin(w, k, procs, i).1, i, |procs|)
    decreases |procs| - i
  {
    if i < |procs| {
      if !procs[i].runnable || procs[i].level != 1 {
        TurnsInOrder(w, k, procs, i + 1);
      } else {
        var running := procs[i := Dispatched(procs[i])];
        var after := w(k, running, i);
        assert Ok(running) && Leaves(running, after);
        TurnsInOrder(w, k, after, i + 1);
        RisingCons(i, RoundRobin(w, k, after, i + 1).1, |procs|);
      }
    }
  }

  // ---- The scheduler loop ----

  /** One iteration: interrupts, level_finder, interrupts, then the queue of the level found. */
  ghost function Iterate(w: World, k: nat, procs: seq<Proc>): (seq<Proc>, seq<nat>) {
    var aged := Age(w(2 * k, procs, |procs|));
    var before := w(2 * k + 1, aged, |aged|);
    if Served(aged) == 1 then RoundRobin(w, 2 * k + 1, before, 0) else (before, [])
  }

  /** The table after n iterations. */
  ghost function After(w: World, k: nat, procs: seq<Proc>, n: nat): seq<Proc>
    decreases n
  {
    if n == 0 then procs else After(w, k + 1, Iterate(w, k, procs).0, n - 1)
  }

  ghost predicate RunsIn(w: World, k: nat, procs: seq<Proc>, x: nat, n: nat)
    decreases n
  {
    if n == 0 then x in Iterate(w, k, procs).1 else RunsIn(w, k + 1, Iterate(w, k, procs).0, x, n - 1)
  }

  lemma IterateOk(w: World, k: nat, procs: seq<Proc>)
    requires WorldOk(w) && Ok(procs)
    ensures Ok(Iterate(w, k, procs).0) && |Iterate(w, k, procs).0| == |procs|
  {
    var seen := w(2 * k, procs, |procs|);
    assert Leaves(procs, seen);
    var aged := Age(seen);
    assert Ok(aged);
    var before := w(2 * k + 1, aged, |aged|);
    assert Leaves(aged, before);
    RoundRobinOk(w, 2 * k + 1, before, 0);
  }

  /** In every state of every run waited is below MAX_WAITING_TIME, and not negative at levels 2 and 3. */
  lemma {:induction false} WaitedIsBounded(w: World, k: nat, procs: seq<Proc>, n: nat)
    requires WorldOk(w) && Ok(procs)
    ensures Ok(After(w, k, procs, n)) && |After(w, k, procs, n)| == |procs|
    decreases n
  {
    if n > 0 {
      IterateOk(w, k, procs);
      WaitedIsBounded(w, k + 1, Iterate(w, k, procs).0, n - 1);
    }
  }

  /** One iteration dispatches a waiting process exactly if it is of level 1 or of age; any other waits one longer. */
  lemma WaitOrRun(w: World, k: nat, procs: seq<Proc>, x: nat)
    requires WorldOk(w) && Ok(procs) && x < |procs| && procs[x].runnable
    ensures x in Iterate(w, k, procs).1 <==> procs[x].level == 1 || procs[x].waited + 1 >= MAX_WAITING_TIME
    ensures !(procs[x].level == 1 || procs[x].waited + 1 >= MAX_WAITING_TIME) ==>
            |Iterate(w, k, procs).0| == |procs| && Iterate(w, k, procs).0[x] == procs[x].(waited := procs[x].waited + 1)
  {
    var seen := w(2 * k, procs, |procs|);
    assert Leaves(procs, seen) && seen[x] == procs[x];
    var aged := Age(seen);
    assert aged[x] == Aged(procs[x]) && Ok(aged);
    var before := w(2 * k + 1, aged, |aged|);
    assert Leaves(aged, before) && before[x] == aged[x];
    GetsTurn(w, 2 * k + 1, before, 0, x);
    assert aged[x].level == 1 ==> Waiting(aged, 1) && AnyWaiting(aged);
  }

  /** How long a waiting process waits: level 1 not at all, the others until they are of age. */
  function Turn(p: Proc): int {
    if p.level == 1 then 0 else MAX_WAITING_TIME - 1 - p.waited
  }

  /**
   When a waiting process runs, to the iteration: at level 1 in the next one, at levels 2 and
   3 when it comes of age and never before, whatever lottery and BJF choose.
   */
  lemma {:induction false} RunsExactlyThen(w: World, k: nat, procs: seq<Proc>, x: nat, n: nat)
    requires WorldOk(w) && Ok(procs) && x < |procs| && procs[x].runnable && n <= Turn(procs[x])
    ensures RunsIn(w, k, procs, x, n) <==> n == Turn(procs[x])
    decreases n
  {
    WaitOrRun(w, k, procs, x);
    if n > 0 {
      IterateOk(w, k, procs);
      RunsExactlyThen(w, k + 1, Iterate(w, k, procs).0, x, n - 1);
    }
  }

  /**
   Bounded waiting: a process that waits for the CPU runs within MAX_WAITING_TIME - waited
   iterations, and never later than MAX_WAITING_TIME however often it ran before.
   */
  lemma BoundedWaiting(w: World, k: nat, procs: seq<Proc>, x: nat) returns (n: nat)
    requires WorldOk(w) && Ok(procs) && x < |procs| && procs[x].runnable
    ensures n < MAX_WAITING_TIME && n < MAX_WAITING_TIME - procs[x].waited && RunsIn(w, k, procs, x, n)
    ensures forall m: nat | m < n :: !RunsIn(w, k, procs, x, m)
  {
    assert SlotOk(procs[x]);
    n := Turn(procs[x]);
    RunsExactlyThen(w, k, procs, x, n);
    forall m: nat | m < n ensures !RunsIn(w, k, procs, x, m) {
      RunsExactlyThen(w, k, procs, x, m);
    }
  }

  /** Over a whole run: wherever it has led, whoever waits then runs within MAX_WAITING_TIME iterations. */
  lemma RunBoundedWaiting(w: World, k: nat, procs: seq<Proc>, steps: nat, x: nat) returns (n: nat)
    requires WorldOk(w) && Ok(procs) && x < |After(w, k, procs, steps)| && After(w, k, procs, steps)[x].runnable
    ensures n < MAX_WAITING_TIME && RunsIn(w, k + steps, After(w, k, procs, steps), x, n)
  {
    WaitedIsBounded(w, k, procs, steps);
    var here := After(w, k, procs, steps);
    n := BoundedWaiting(w, k + steps, here, x);
  }

  /**
   waited does fall below zero at level 1: a process that comes of age is reset to 0 and then
   charged for its turn.
   */
  lemma AgedTurnIsCharged(w: World, k: nat, p: Proc)
    requires p.runnable && SlotOk(p) && p.waited + 1 == MAX_WAITING_TIME
    requires forall j: nat, procs: seq<Proc>, i: nat :: w(j, procs, i) == procs
    ensures Iterate(w, k, [p]).0 == [p.(runnable := false, level := 1, waited := -1)]
  {
    var aged := Age([p]);
    assert aged == [p.(level := 1, waited := 0)];
    assert aged[0].runnable && aged[0].level == 1;
    assert Waiting(aged, 1) && AnyWaiting(aged);
    assert aged[0 := Dispatched(aged[0])] == [p.(runnable := false, level := 1, waited := -1)];
    assert RoundRobin(w, 2 * k + 1, aged[0 := Dispatched(aged[0])], 1) == (aged[0 := Dispatched(aged[0])], []);
  }

  // ---- The loops ----

  /** Tickets of the waiting level-2 processes among the first n slots. */
  function Tickets(procs: seq<Proc>, n: nat): int
    requires n <= |procs|
  {
    if n == 0 then 0 else Tickets(procs, n - 1) + if InLottery(procs[n - 1]) then procs[n - 1].tickets else 0
  }

  /** The first waiting level-2 process at which the tickets reach the draw; -1 if they never do. */
  ghost predicate Wins(procs: seq<Proc>, draw: int, winner: int) {
    if winner == -1 then forall i: nat | i < |procs| && InLottery(procs[i]) :: Tickets(procs, i + 1) < draw
    else
      && 0 <= winner < |procs| && procs[winner].runnable && procs[winner].level == 2
      && Tickets(procs, winner + 1) >= draw
      && forall i: nat | i < winner && InLottery(procs[i]) :: Tickets(procs, i + 1) < draw
  }

  predicate InLottery(p: Proc) {
    p.runnable && p.level == 2
  }

  lemma {:induction false} TicketsGrow(procs: seq<Proc>, m: nat, n: nat)
    requires m <= n <= |procs| && forall j | 0 <= j < |procs| && InLottery(procs[j]) :: procs[j].tickets >= 0
    ensures Tickets(procs, m) <= Tickets(procs, n)
    decreases n
  {
    if m < n {
      TicketsGrow(procs, m, n - 1);
    }
  }

  /**
   A fair lottery: of the draws from 1 on, a waiting level-2 process wins exactly as many as it has
   tickets, namely those just above the tickets of the slots before it.
   */
  lemma WinsItsTickets(procs: seq<Proc>, draw: int, i: nat)
    requires i < |procs| && procs[i].runnable && procs[i].level == 2 && draw >= 1
    requires forall j | 0 <= j < |procs| && procs[j].runnable && procs[j].level == 2 :: procs[j].tickets >= 0
    ensures Wins(procs, draw, i) <==> Tickets(procs, i) < draw <= Tickets(procs, i) + procs[i].tickets
  {
    if Tickets(procs, i) < draw {
      forall j: nat | j < i && InLottery(procs[j]) ensures Tickets(procs, j + 1) < draw {
        TicketsGrow(procs, j + 1, i);
      }
    }
    if Wins(procs, draw, i) {
      LastBefore(procs, draw, i);
    }
  }

  /** If no slot below i reaches the draw, neither do all their tickets. */
  lemma {:induction false} LastBefore(procs: seq<Proc>, draw: int, i: nat)
    requires i <= |procs| && draw >= 1 && forall j: nat | j < i && InLottery(procs[j]) :: Tickets(procs, j + 1) < draw
    ensures Tickets(procs, i) < draw
    decreases i
  {
    if i > 0 && !InLottery(procs[i - 1]) {
      LastBefore(procs, draw, i - 1);
    }
  }

  /** Which of the three schedulers was called, and what it chose. */
  datatype Choice = InTurn | Drawn(winner: int) | Ranked(best: int) | Idle

  class Cpu {
    var procs: seq<Proc>
    ghost var ran: seq<nat>

    constructor (table: seq<Proc>)
      ensures procs == table && ran == []
    {
      procs, ran := table, [];
    }

    method LevelFinder() returns (level: int)
      requires Ok(procs)
      modifies this`procs
      ensures procs == Age(old(procs)) && level == Served(procs)
      ensures |procs| == |old(procs)| && forall i | 0 <= i < |procs| :: AgedTo(old(procs)[i], procs[i])
      ensures level == 4 <==> forall i | 0 <= i < |procs| :: !procs[i].runnable
      ensures level != 4 ==> 1 <= level <= 3 && Best(procs, level)
    {
      var flag, i := false, 0;
      level := 3;
      while i < |procs|
        invariant 0 <= i <= |procs| == |old(procs)|
        invariant forall j | 0 <= j < |procs| :: procs[j] == if j < i then Aged(old(procs)[j]) else old(procs)[j]
        invariant flag <==> exists j | 0 <= j < i :: procs[j].runnable
        invariant level == 1 <==> exists j | 0 <= j < i :: procs[j].runnable && procs[j].level == 1
        invariant level == 1 || (level == 2 <==> exists j | 0 <= j < i :: procs[j].runnable && procs[j].level == 2)
        invariant 1 <= level <= 3
      {
        if procs[i].runnable {
          flag := true;
          procs := procs[i := procs[i].(waited := procs[i].waited + 1)];
          if procs[i].waited >= MAX_WAITING_TIME {
            procs := procs[i := procs[i].(level := 1, waited := 0)];
          }
          if procs[i].level == 1 {
            level := 1;
          }
          if procs[i].level == 2 && level != 1 {
            level := 2;
          }
        }
        i := i + 1;
      }
      if !flag {
        level := 4;
      }
      assert forall j | 0 <= j < |procs| :: SlotOk(old(procs)[j]);
    }

    /** swtch: process i runs until it comes back. */
    method Run(w: World, k: nat, i: nat)
      requires WorldOk(w) && Ok(procs) && i < |procs| && procs[i].level == 1
      modifies this
      ensures procs == w(k, old(procs)[i := Dispatched(old(procs)[i])], i) && ran == old(ran) + [i]
      ensures |procs| == |old(procs)| && Ok(procs)
    {
      procs := procs[i := procs[i].(runnable := false, waited := procs[i].waited - 1)];
      assert Leaves(procs, w(k, procs, i));
      procs := w(k, procs, i);
      ran := ran + [i];
    }

    method RoundRobinLoop(w: World, k: nat)
      requires WorldOk(w) && Ok(procs)
      modifies this
      ensures procs == RoundRobin(w, k, old(procs), 0).0 && ran == old(ran) + RoundRobin(w, k, old(procs), 0).1
    {
      var i := 0;
      while i < |procs|
        invariant 0 <= i <= |procs| == |old(procs)| && Ok(procs)
        invariant RoundRobin(w, k, procs, i).0 == RoundRobin(w, k, old(procs), 0).0
        invariant ran + RoundRobin(w, k, procs, i).1 == old(ran) + RoundRobin(w, k, old(procs), 0).1
      {
        if procs[i].runnable && procs[i].level == 1 {
          Run(w, k, i);
        }
        i := i + 1;
      }
    }

    /** find_winner: the first waiting level-2 process at which the tickets reach the draw; -1 if they never do. */
    method FindWinner(draw: int) returns (winner: int)
      ensures Wins(procs, draw, winner)
    {
      var i, left := 0, draw;
      while i < |procs|
        invariant 0 <= i <= |procs| && left == draw - Tickets(procs, i)
        invariant forall j: nat | j < i && InLottery(procs[j]) :: Tickets(procs, j + 1) < draw
      {
        if procs[i].runnable && procs[i].level == 2 {
          left := left - procs[i].tickets;
          if left <= 0 {
            return i;
          }
        }
        i := i + 1;
      }
      winner := -1;
    }

    /** The dispatch loop of lottery and of BJF: as written it dispatches the chosen process only at level 1. */
    method DispatchChosen(w: World, k: nat, chosen: int)
      requires WorldOk(w) && Ok(procs)
      modifies this
      ensures var eligible := 0 <= chosen < |old(procs)| && old(procs)[chosen].runnable
              && old(procs)[chosen].level == 1;
              && procs == (if eligible then w(k, old(procs)[chosen := Dispatched(old(procs)[chosen])], chosen)
                           else old(procs))
              && ran == (if eligible then old(ran) + [chosen] else old(ran))
    {
      var i := 0;
      while i < |procs|
        invariant 0 <= i <= |procs| == |old(procs)| && Ok(procs)
        invariant i <= chosen || chosen < 0 ==> procs == old(procs) && ran == old(ran)
        invariant 0 <= chosen < i ==>
                    var eligible := old(procs)[chosen].runnable && old(procs)[chosen].level == 1;
                    && procs == (if eligible then w(k, old(procs)[chosen := Dispatched(old(procs)[chosen])], chosen)
                                 else old(procs))
                    && ran == (if eligible then old(ran) + [chosen] else old(ran))
      {
        if procs[i].runnable && procs[i].level == 1 && i == chosen {
          Run(w, k, i);
        }
        i := i + 1;
      }
    }

    /** lottery: the winner is at level 2, so it is not dispatched. */
    method Lottery(w: World, k: nat, draw: int) returns (winner: int)
      requires WorldOk(w) && Ok(procs)
      modifies this
      ensures procs == old(procs) && ran == old(ran) && Wins(procs, draw, winner)
    {
      winner := FindWinner(draw);
      if winner != -1 {
        DispatchChosen(w, k, winner);
      }
    }

    /** BJF: the best job, however it is ranked, is at level 3, so it is not dispatched. */
    method Bjf(w: World, k: nat, best: int)
      requires WorldOk(w) && Ok(procs)
      requires (best == -1 || (0 <= best < |procs| && procs[best].runnable && procs[best].level == 3))
      modifies this
      ensures procs == old(procs) && ran == old(ran)
    {
      if best != -1 {
        DispatchChosen(w, k, best);
      }
    }

    /**
     One iteration of scheduler; draw and rank stand for random_number and the ranking of
     find_best_job. The draw is used exactly when level 2 is the best level at which somebody
     waits after aging, the ranking exactly when level 3 is, the round robin exactly when level 1
     is, and nothing exactly when nobody waits.
     */
    method Iteration(w: World, k: nat, draw: int, rank: seq<Proc> -> int) returns (c: Choice)
      requires WorldOk(w) && Ok(procs) && ran == []
      requires forall t: seq<Proc> :: RankOk(t, rank(t))
      modifies this
      ensures procs == Iterate(w, k, old(procs)).0 && ran == Iterate(w, k, old(procs)).1
      ensures var aged := Age(w(2 * k, old(procs), |old(procs)|));
              var before := w(2 * k + 1, aged, |aged|);
              && (c.InTurn? <==> Best(aged, 1)) && (c.Drawn? <==> Best(aged, 2)) && (c.Ranked? <==> Best(aged, 3))
              && (c.Idle? <==> forall i | 0 <= i < |aged| :: !aged[i].runnable)
              && (c.Drawn? ==> Wins(before, draw, c.winner)) && (c.Ranked? ==> c.best == rank(before))
    {
      ghost var p0 := procs;
      assert Leaves(procs, w(2 * k, procs, |procs|));
      procs := w(2 * k, procs, |procs|);
      var level := LevelFinder();
      ghost var aged := procs;
      assert Ok(aged) && Leaves(aged, w(2 * k + 1, aged, |aged|));
      ServedIsBest(aged, 1);
      ServedIsBest(aged, 2);
      ServedIsBest(aged, 3);
      procs := w(2 * k + 1, procs, |procs|);
      c := Idle;
      if level == 1 {
        RoundRobinLoop(w, 2 * k + 1);
        c := InTurn;
      } else if level == 2 {
        var winner := Lottery(w, 2 * k + 1, draw);
        c := Drawn(winner);
      } else if level == 3 {
        assert RankOk(procs, rank(procs));
        c := Ranked(rank(procs));
        Bjf(w, 2 * k + 1, rank(procs));
      }
    }
  }

  /** find_best_job returns a waiting level-3 process, or none. */
  ghost predicate RankOk(procs: seq<Proc>, best: int) {
    best == -1 || (0 <= best < |procs| && procs[best].runnable && procs[best].level == 3)
  }
}
