/**
 The pipe: a ring of PIPESIZE bytes with 32-bit counters, and processes that sleep on it.

 p->lock is held from acquire until the process returns or sleeps, so a section of
 pipewrite or piperead between two such points is one step. wakeup empties a set of
 sleepers.
 */
module Pipe {

  const PIPESIZE: nat := 512
  const WORD: nat := 0x1_0000_0000

  type Byte = x: int | 0 <= x < 256

  // ---- What the sections do, on a queue ----

  /** readers and writers are asleep on &nread and &nwrite; stored and taken are the history. */
  datatype Queue = Queue(buf: seq<Byte>, readopen: bool, writeopen: bool, readers: set<nat>, writers: set<nat>,
                         stored: seq<Byte>, taken: seq<Byte>)

  datatype Outcome = Returned(n: nat) | Failed | Slept(done: nat)

  function Min(a: nat, b: nat): nat {
    if a < b then a else b
  }

  function Room(q: Queue): int {
    PIPESIZE - |q.buf|
  }

  function Stored(q: Queue, bytes: seq<Byte>): Queue {
    q.(buf := q.buf + bytes, stored := q.stored + bytes)
  }

  /** pipewrite by process p from acquire, or from waking up, to the next return or sleep. */
  function WriteSection(q: Queue, p: nat, bytes: seq<Byte>, killed: bool): (Queue, Outcome)
    requires |q.buf| <= PIPESIZE
  {
    if |bytes| <= Room(q) then (Stored(q, bytes).(readers := {}), Returned(|bytes|))
    else
      var full := Stored(q, bytes[..Room(q)]);
      if !q.readopen || killed then (full, Failed)
      else (full.(readers := {}, writers := q.writers + {p}), Slept(Room(q)))
  }

  /** piperead, likewise; data is what the caller gets. */
  function ReadSection(q: Queue, p: nat, n: nat, killed: bool): (Queue, Outcome, seq<Byte>) {
    if q.buf == [] && q.writeopen then
      if killed then (q, Failed, []) else (q.(readers := q.readers + {p}), Slept(0), [])
    else
      var m := Min(n, |q.buf|);
      (q.(buf := q.buf[m..], taken := q.taken + q.buf[..m], writers := {}), Returned(m), q.buf[..m])
  }

  function CloseSection(q: Queue, writable: bool): Queue {
    if writable then q.(writeopen := false, readers := {}) else q.(readopen := false, writers := {})
  }

  /**
   The first k bytes went into the buffer. It returns exactly if that is all of them; otherwise
   the buffer is full, and it fails if nobody will read or it is killed, and sleeps if not.
   */
  ghost predicate Wrote(q: Queue, q2: Queue, p: nat, bytes: seq<Byte>, killed: bool, r: Outcome, k: nat) {
    && k <= |bytes| && q2.buf == q.buf + bytes[..k] && q2.stored == q.stored + bytes[..k] && q2.taken == q.taken
    && |q2.buf| <= PIPESIZE && q2.readopen == q.readopen && q2.writeopen == q.writeopen
    && (r.Returned? <==> k == |bytes|) && (r.Returned? ==> r.n == k)
    && (!r.Returned? ==> |q2.buf| == PIPESIZE && (r == Failed <==> !q.readopen || killed))
    && (r.Slept? ==> r.done == k)
    && q2.writers == (if r.Slept? then q.writers + {p} else q.writers)
    && q2.readers == (if r == Failed then q.readers else {})
  }

  /**
   data came off the front of the buffer, up to n bytes and fewer only if the buffer is then empty.
   It waits only for an empty pipe with a write end, and fails instead if killed.
   */
  ghost predicate Took(q: Queue, q2: Queue, p: nat, n: nat, killed: bool, r: Outcome, data: seq<Byte>) {
    && q.buf == data + q2.buf && q2.taken == q.taken + data && q2.stored == q.stored
    && q2.readopen == q.readopen && q2.writeopen == q.writeopen
    && (r.Returned? <==> q.buf != [] || !q.writeopen)
    && (r.Returned? ==> r.n == |data| <= n && (|data| < n ==> q2.buf == []))
    && (!r.Returned? ==> data == [] && (r == Failed <==> killed) && (r.Slept? ==> r.done == 0))
    && q2.readers == (if r.Slept? then q.readers + {p} else q.readers)
    && q2.writers == (if r.Returned? then {} else q.writers)
  }

  /** One end is closed for good, and whoever slept for it is woken. */
  ghost predicate Closed(q: Queue, q2: Queue, writable: bool) {
    && q2.buf == q.buf && q2.stored == q.stored && q2.taken == q.taken
    && (if writable then !q2.writeopen && q2.readopen == q.readopen && q2.readers == {} && q2.writers == q.writers
        else !q2.readopen && q2.writeopen == q.writeopen && q2.writers == {} && q2.readers == q.readers)
  }

  lemma WriteSectionWrote(q: Queue, p: nat, bytes: seq<Byte>, killed: bool)
    requires |q.buf| <= PIPESIZE
    ensures var (q2, r) := WriteSection(q, p, bytes, killed);
            Wrote(q, q2, p, bytes, killed, r, Min(|bytes|, Room(q)))
  {
    if |bytes| <= Room(q) {
      assert bytes[..|bytes|] == bytes;
    }
  }

  lemma ReadSectionTook(q: Queue, p: nat, n: nat, killed: bool)
    ensures var (q2, r, data) := ReadSection(q, p, n, killed); Took(q, q2, p, n, killed, r, data)
  {
    var m := Min(n, |q.buf|);
    assert q.buf == q.buf[..m] + q.buf[m..];
  }

  datatype Step =
    | Write(p: nat, bytes: seq<Byte>, killed: bool)
    | Read(p: nat, n: nat, killed: bool)
    | Close(writable: bool)
    | Kill(p: nat)

  /**
   A read end is not closed while a process sleeps in piperead: that process holds a reference to
   it; likewise for the write end.
   */
  ghost predicate Next(q: Queue, s: Step, q2: Queue) {
    match s
    case Write(p, bytes, killed) => |q.buf| <= PIPESIZE && q.writeopen && p !in q.readers + q.writers
      && q2 == WriteSection(q, p, bytes, killed).0
    case Read(p, n, killed) => q.readopen && p !in q.readers + q.writers && q2 == ReadSection(q, p, n, killed).0
    case Close(writable) => (if writable then q.writers == {} else q.readers == {}) && q2 == CloseSection(q, writable)
    case Kill(p) => q2 == q.(readers := q.readers - {p}, writers := q.writers - {p})
  }

  /** Order and bounds: what was stored is what was taken followed by what is buffered. */
  ghost predicate Fifo(q: Queue) {
    |q.buf| <= PIPESIZE && q.stored == q.taken + q.buf
  }

  /** A sleeping writer faces a full pipe with a read end. */
  ghost predicate WritersOk(q: Queue) {
    q.writers != {} ==> |q.buf| == PIPESIZE && q.readopen
  }

  /** A sleeping reader faces an empty pipe with a write end. */
  ghost predicate ReadersOk(q: Queue) {
    q.readers != {} ==> q.buf == [] && q.writeopen
  }

  lemma StepKeepsFifo(q: Queue, s: Step, q2: Queue)
    requires Fifo(q) && WritersOk(q) && (q.readers != {} ==> q.readopen) && Next(q, s, q2)
    ensures Fifo(q2) && WritersOk(q2) && (q2.readers != {} ==> q2.readopen)
  {
    match s
    case Write(p, bytes, killed) =>
      var part := if |bytes| <= Room(q) then bytes else bytes[..Room(q)];
      assert q.stored + part == q.taken + (q.buf + part);
    case Read(p, n, killed) =>
      var m := Min(n, |q.buf|);
      assert q.taken + q.buf == (q.taken + q.buf[..m]) + q.buf[m..];
    case _ =>
  }

  /** What a step returned to its caller and the bytes it moved: out of the caller's hands, or into them. */
  datatype Event = Event(r: Outcome, bytes: seq<Byte>)

  /** e is what step s of the run returned: the data of a read, and how far a write got. */
  ghost predicate Happens(q: Queue, s: Step, q2: Queue, e: Event) {
    match s
    case Write(p, bytes, killed) => e.bytes <= bytes && Wrote(q, q2, p, bytes, killed, e.r, |e.bytes|)
    case Read(p, n, killed) => e == Event(ReadSection(q, p, n, killed).1, ReadSection(q, p, n, killed).2)
    case _ => e.bytes == []
  }

  lemma SomethingHappens(q: Queue, s: Step, q2: Queue) returns (e: Event)
    requires Next(q, s, q2)
    ensures Happens(q, s, q2, e)
  {
    match s
    case Write(p, bytes, killed) =>
      WriteSectionWrote(q, p, bytes, killed);
      var k := Min(|bytes|, Room(q));
      assert |bytes[..k]| == k;
      e := Event(WriteSection(q, p, bytes, killed).1, bytes[..k]);
    case Read(p, n, killed) => e := Event(ReadSection(q, p, n, killed).1, ReadSection(q, p, n, killed).2);
    case _ => e := Event(Returned(0), []);
  }

  /** The bytes of the first k steps, those of the reads or those of the writes, joined. */
  ghost function Joined(steps: seq<Step>, events: seq<Event>, reading: bool, k: nat): seq<Byte>
    requires k <= |steps| == |events|
  {
    if k == 0 then []
    else
      var mine := if reading then steps[k - 1].Read? else steps[k - 1].Write?;
      Joined(steps, events, reading, k - 1) + (if mine then events[k - 1].bytes else [])
  }

  /**
   Over every run: what the reads returned, joined, is a prefix of what the writes accepted, joined,
   and the rest is in the buffer.
   */
  lemma {:induction false} ReadsDeliverWrites(run: seq<Queue>, steps: seq<Step>, events: seq<Event>, k: nat)
    requires IsRun(run, steps) && k <= |steps| == |events|
    requires forall j | 0 <= j < |steps| :: Happens(run[j], steps[j], run[j + 1], events[j])
    ensures Joined(steps, events, false, k) == Joined(steps, events, true, k) + run[k].buf
    ensures Joined(steps, events, true, k) <= Joined(steps, events, false, k)
  {
    RunIsFifo(run, steps, k);
    HistoryIsJoined(run, steps, events, k);
  }

  lemma {:induction false} HistoryIsJoined(run: seq<Queue>, steps: seq<Step>, events: seq<Event>, k: nat)
    requires IsRun(run, steps) && k <= |steps| == |events|
    requires forall j | 0 <= j < |steps| :: Happens(run[j], steps[j], run[j + 1], events[j])
    ensures run[k].stored == Joined(steps, events, false, k) && run[k].taken == Joined(steps, events, true, k)
  {
    if k > 0 {
      var j := k - 1;
      HistoryIsJoined(run, steps, events, j);
      HistoryStep(run[j], steps[j], run[j + 1], events[j]);
    }
  }

  lemma HistoryStep(q: Queue, s: Step, q2: Queue, e: Event)
    requires Next(q, s, q2) && Happens(q, s, q2, e)
    ensures q2.stored == q.stored + (if s.Write? then e.bytes else [])
    ensures q2.taken == q.taken + (if s.Read? then e.bytes else [])
  {
    match s
    case Write(p, bytes, killed) => assert bytes[..|e.bytes|] == e.bytes;
    case Read(p, n, killed) => ReadSectionTook(q, p, n, killed);
    case _ =>
  }

  /** The guard of the branch that forgets to wake: a killed writer with more than fits. */
  predicate ForgetsReaders(s: Step) {
    s.Write? && s.killed && |s.bytes| > PIPESIZE
  }

  /** Exactly when a step leaves a reader asleep on a pipe that has data, or has lost its writers. */
  lemma LostWakeupExactly(q: Queue, s: Step, q2: Queue)
    requires Fifo(q) && WritersOk(q) && ReadersOk(q) && (q.readers != {} ==> q.readopen) && Next(q, s, q2)
    ensures ReadersOk(q2) <==> !(ForgetsReaders(s) && q.readers != {})
  {
    if s.Write? && q.readers != {} {
      assert Room(q) == PIPESIZE;
    }
  }

  function Fresh(): Queue {
    Queue([], true, true, {}, {}, [], [])
  }

  ghost predicate IsRun(run: seq<Queue>, steps: seq<Step>) {
    |run| == |steps| + 1 && run[0] == Fresh() && forall k | 0 <= k < |steps| :: Next(run[k], steps[k], run[k + 1])
  }

  /** Every run keeps the order of the bytes, whatever is killed or closed. */
  lemma {:induction false} RunIsFifo(run: seq<Queue>, steps: seq<Step>, k: nat)
    requires IsRun(run, steps) && k < |run|
    ensures Fifo(run[k]) && WritersOk(run[k]) && (run[k].readers != {} ==> run[k].readopen)
    decreases k
  {
    if k > 0 {
      RunIsFifo(run, steps, k - 1);
      StepKeepsFifo(run[k - 1], steps[k - 1], run[k - 1 + 1]);
    }
  }

  /** In runs where no killed writer meets a full pipe, no reader sleeps on a pipe that has data. */
  lemma {:induction false} NoLostWakeup(run: seq<Queue>, steps: seq<Step>, k: nat)
    requires IsRun(run, steps) && k < |run| && forall j | 0 <= j < |steps| :: !ForgetsReaders(steps[j])
    ensures ReadersOk(run[k])
    decreases k
  {
    if k > 0 {
      NoLostWakeup(run, steps, k - 1);
      RunIsFifo(run, steps, k - 1);
      LostWakeupExactly(run[k - 1], steps[k - 1], run[k - 1 + 1]);
    }
  }

  /** Without that condition it fails: a reader sleeps on a full pipe. */
  lemma LostWakeupHappens(bytes: seq<Byte>) returns (run: seq<Queue>, steps: seq<Step>)
    requires |bytes| == PIPESIZE + 1
    ensures |run| == 3 && IsRun(run, steps) && 1 in run[2].readers && |run[2].buf| == PIPESIZE
  {
    steps := [Read(1, 1, false), Write(2, bytes, true)];
    var q1 := ReadSection(Fresh(), 1, 1, false).0;
    run := [Fresh(), q1, WriteSection(q1, 2, bytes, true).0];
    assert Next(run[0], steps[0], run[1]) && Next(run[1], steps[1], run[2]);
  }

  // ---- The ring ----

  /** Where the k-th byte after counter n lives. */
  function Cell(n: nat, k: nat): (c: nat)
    ensures c < PIPESIZE
  {
    (n + k) % PIPESIZE
  }

  lemma CellsDiffer(n: nat, k: nat, l: nat)
    requires k < l < PIPESIZE
    ensures Cell(n, k) != Cell(n, l)
  {
  }

  lemma Wraps(n: nat, k: nat)
    ensures ((n + k) % WORD) % PIPESIZE == (n + k) % PIPESIZE
  {
    var m := n + k;
    assert m == (m / WORD) * WORD + m % WORD;
    assert (m / WORD) * WORD == ((m / WORD) * (WORD / PIPESIZE)) * PIPESIZE;
    MultipleVanishes((m / WORD) * (WORD / PIPESIZE), m % WORD);
  }

  lemma MultipleVanishes(a: nat, b: nat)
    ensures (a * PIPESIZE + b) % PIPESIZE == b % PIPESIZE
  {
  }

  class Ring {
    const data: array<Byte>
    var nread: nat
    var nwrite: nat
    var readopen: bool
    var writeopen: bool
    var readers: set<nat>
    var writers: set<nat>
    ghost var buf: seq<Byte>
    ghost var stored: seq<Byte>
    ghost var taken: seq<Byte>

    ghost function Q(): Queue
      reads this
    {
      Queue(buf, readopen, writeopen, readers, writers, stored, taken)
    }

    ghost predicate Valid()
      reads this, data
    {
      && data.Length == PIPESIZE && |buf| <= PIPESIZE
      && nread < WORD && nwrite == (nread + |buf|) % WORD
      && forall k: nat | k < |buf| :: data[Cell(nread, k)] == buf[k]
    }

    constructor ()
      ensures Valid() && Q() == Fresh() && fresh(data) && buf == [] && readopen && writeopen
    {
      data := new Byte[PIPESIZE](_ => 0);
      nread, nwrite, readopen, writeopen, readers, writers := 0, 0, true, true, {}, {};
      buf, stored, taken := [], [], [];
    }

    /** The counters, across their wrap-around, say how full the ring is. */
    lemma Counters()
      requires Valid()
      ensures nwrite < WORD && (nwrite == nread <==> buf == [])
      ensures (nwrite == (nread + PIPESIZE) % WORD <==> |buf| == PIPESIZE)
      ensures (nwrite - nread) % WORD == |buf|
    {
    }

    method Put(b: Byte)
      requires Valid() && |buf| < PIPESIZE
      modifies this`nwrite, this`buf, this`stored, data
      ensures Valid() && buf == old(buf) + [b] && stored == old(stored) + [b]
    {
      Wraps(nread, |buf|);
      forall k: nat | k < |buf| ensures Cell(nread, k) != Cell(nread, |buf|) {
        CellsDiffer(nread, k, |buf|);
      }
      Stepped(nread, |buf|);
      data[nwrite % PIPESIZE] := b;
      nwrite := (nwrite + 1) % WORD;
      buf := buf + [b];
      stored := stored + [b];
    }

    method Get() returns (b: Byte)
      requires Valid() && buf != []
      modifies this`nread, this`buf, this`taken
      ensures Valid() && [b] + buf == old(buf) && taken == old(taken) + [b]
    {
      b := data[nread % PIPESIZE];
      assert data[Cell(nread, 0)] == buf[0];
      ghost var next := (nread + 1) % WORD;
      forall k: nat | k < |buf| - 1 ensures data[Cell(next, k)] == buf[1..][k] {
        assert data[Cell(nread, k + 1)] == buf[k + 1];
        Shifted(nread, k);
      }
      Advanced(nread, |buf|);
      taken := taken + [b];
      nread := (nread + 1) % WORD;
      buf := buf[1..];
    }

    /** A section of pipewrite. */
    method PipeWrite(p: nat, bytes: seq<Byte>, killed: bool) returns (r: Outcome)
      requires Valid()
      modifies this`nwrite, this`buf, this`stored, this`readers, this`writers, data
      ensures Valid() && (Q(), r) == WriteSection(old(Q()), p, bytes, killed)
      ensures exists k: nat :: Wrote(old(Q()), Q(), p, bytes, killed, r, k)
    {
      WriteSectionWrote(Q(), p, bytes, killed);
      var i := 0;
      while i < |bytes|
        invariant 0 <= i <= |bytes| && Valid() && Q() == Stored(old(Q()), bytes[..i])
      {
        Counters();
        if nwrite == (nread + PIPESIZE) % WORD {
          assert i == Room(old(Q()));
          if !readopen || killed {
            return Failed;
          }
          readers := {};
          writers := writers + {p};
          return Slept(i);
        }
        Put(bytes[i]);
        assert bytes[..i + 1] == bytes[..i] + [bytes[i]];
        assert Q().buf == old(buf) + bytes[..i + 1] && Q().stored == old(stored) + bytes[..i + 1];
        i := i + 1;
      }
      assert bytes[..i] == bytes;
      readers := {};
      r := Returned(|bytes|);
    }

    /** A section of piperead. */
    method PipeRead(p: nat, n: nat, killed: bool) returns (r: Outcome, addr: seq<Byte>)
      requires Valid()
      modifies this`nread, this`buf, this`taken, this`readers, this`writers
      ensures Valid() && (Q(), r, addr) == ReadSection(old(Q()), p, n, killed)
      ensures Took(old(Q()), Q(), p, n, killed, r, addr)
    {
      ReadSectionTook(Q(), p, n, killed);
      Counters();
      addr := [];
      if nread == nwrite && writeopen {
        if killed {
          return Failed, [];
        }
        readers := readers + {p};
        return Slept(0), [];
      }
      var i := 0;
      while i < n
        invariant 0 <= i <= n && i <= |old(buf)| && Valid() && addr == old(buf)[..i] && |addr| == i
        invariant buf == old(buf)[i..] && taken == old(taken) + addr
        invariant Q() == old(Q()).(buf := buf, taken := taken)
      {
        Counters();
        if nread == nwrite {
          break;
        }
        var b := Get();
        assert b == old(buf)[i..][0] == old(buf)[i];
        addr := addr + [b];
        i := i + 1;
      }
      Counters();
      assert i == Min(n, |old(buf)|);
      writers := {};
      r := Returned(i);
    }

    /** pipeclose; the page is freed when both ends are closed. */
    method PipeClose(writable: bool) returns (freed: bool)
      requires Valid()
      modifies this`readopen, this`writeopen, this`readers, this`writers
      ensures Valid() && Q() == CloseSection(old(Q()), writable) && (freed <==> !readopen && !writeopen)
      ensures Closed(old(Q()), Q(), writable)
    {
      if writable {
        writeopen := false;
        readers := {};
      } else {
        readopen := false;
        writers := {};
      }
      freed := !readopen && !writeopen;
    }
  }

  lemma Shifted(n: nat, k: nat)
    requires n < WORD
    ensures Cell((n + 1) % WORD, k) == Cell(n, k + 1)
  {
    if n + 1 == WORD {
      assert n + (k + 1) == (WORD / PIPESIZE) * PIPESIZE + k;
      MultipleVanishes(WORD / PIPESIZE, k);
    }
  }

  lemma Stepped(n: nat, k: nat)
    ensures ((n + k) % WORD + 1) % WORD == (n + (k + 1)) % WORD
  {
  }

  lemma Advanced(n: nat, len: nat)
    requires n < WORD && 1 <= len <= PIPESIZE
    ensures (n + len) % WORD == ((n + 1) % WORD + (len - 1)) % WORD
  {
  }
}
