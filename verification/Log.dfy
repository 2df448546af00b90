/**
 The log of log.c on top of the buffer cache: begin_op, end_op, log_write, commit and
 recovery, with the agreement between cache, in-memory header and disk.
 */
module Log {
  import opened Blocks
  import opened Bio
  import opened Collections
  import opened Recovery
  import opened LogHeader
  import opened Coherence
  import opened CacheSteps
  import opened RawWrites

  /** Pinned blocks are blocks of the disk outside the log. */
  ghost predicate Outside(pin: map<nat, nat>, g: Geometry, size: nat) {
    forall h | h in pin :: h < size && !g.InLog(h)
  }

  /** lh lists exactly the pinned blocks, each once. */
  ghost predicate Lists(lh: seq<nat>, pin: map<nat, nat>, g: Geometry, size: nat) {
    Loggable(lh, g, size) && (forall i | 0 <= i < |lh| :: lh[i] in pin) && |pin| == |lh|
  }

  /** A buffer that somebody reads. */
  predicate ReadFor(b: Buf<Block>, disk: Disk, g: Geometry) {
    && b.locked && b.valid && b.refcnt == 1 && b.dev == ROOTDEV && b.blockno < |disk| && !g.InLog(b.blockno)
    && (b.dirty || b.data == disk[b.blockno])
  }

  /** How many blocks commit() has pinned before its i-th write, if it logged n. */
  function PinnedAt(n: nat, i: nat): nat {
    if i <= n then n else if i <= 2 * n then n - (i - n - 1) else 0
  }

  lemma StillPinned(n: nat, tail: nat)
    requires tail < n
    ensures PinnedAt(n, n + 1 + tail) == n - tail
  {
  }

  /**
   commit() of n blocks got through `done` of its writes and, unless ok, no further. used[i]
   counts the buffers that others used, beside the pinned ones, when it came to write i, never
   more than `readers`: up to `done` there was a buffer left each time, and then there was none.
   */
  ghost predicate Traced(used: seq<nat>, n: nat, done: nat, ok: bool, readers: nat) {
    && |used| == done + (if ok then 0 else 1)
    && (forall i | 0 <= i < |used| :: used[i] <= readers)
    && (forall i | 0 <= i < done :: used[i] + PinnedAt(n, i) < NBUF)
    && (!ok ==> used[done] + PinnedAt(n, done) >= NBUF)
  }

  lemma TracedMore(used: seq<nat>, n: nat, done: nat, u: nat, ok: bool, readers: nat)
    requires Traced(used, n, done, true, readers) && u <= readers && (ok <==> u + PinnedAt(n, done) < NBUF)
    ensures Traced(used + [u], n, if ok then done + 1 else done, ok, readers)
  {
  }

  /** With room for the listed blocks and all that others ever use, nothing stops commit(). */
  lemma NothingStops(used: seq<nat>, n: nat, done: nat, ok: bool, readers: nat)
    requires Traced(used, n, done, ok, readers) && n + readers < NBUF
    ensures ok
  {
  }

  class Log {
    const bc: BCache<Block>
    const g: Geometry
    /** The most buffers that others, who only read, ever use at a time. */
    const readers: nat
    /** log.lh: n is the length. */
    var lh: seq<nat>
    var outstanding: nat
    var committing: bool
    ghost var pin: map<nat, nat>

    /** Cache and disk agree; nothing in the log area is pinned; the list has no holes. */
    ghost predicate Agree()
      reads this, bc
    {
      && bc.Valid() && Coherent(bc.bufs, bc.disk, pin)
      && 1 <= g.size && g.start + g.size <= |bc.disk| <= 0x1_0000_0000
      && Outside(pin, g, |bc.disk|)
    }

    /** Exactly the logged blocks are pinned. */
    ghost predicate PinsLog()
      reads this, bc
    {
      Agree() && Lists(lh, pin, g, |bc.disk|)
    }

    /** Between commits: the pinned blocks are the logged ones and the on-disk header is empty. */
    ghost predicate Valid()
      reads this, bc
    {
      && PinsLog()
      && HeaderList(bc.disk[g.start]) == []
      && (committing ==> outstanding == 0)
      && (outstanding == 0 && !committing ==> lh == [])
    }

    /**
     The buffers `held` are in use by others, who only read, as fileread does without begin_op
     (file.c:103-107): each has locked its buffer and finds in it what the log shows for the
     block. Nobody but the log itself uses log blocks.
     */
    ghost predicate Aside(held: set<nat>)
      reads this, bc
    {
      && Busy(bc.bufs, held) && |held| <= readers
      && forall b | b in held :: b < |bc.bufs| && ReadFor(bc.bufs[b], bc.disk, g)
    }

    /**
     Where commit() stops: `pinned` blocks are left, the u other buffers in use are those of
     readers, together they fill the cache, and no buffer can be recycled.
     */
    ghost predicate Full(held: set<nat>, u: nat, pinned: nat)
      reads this, bc
    {
      && Agree() && Aside(held) && |pin| == pinned && u == |Unpinned(bc.bufs, held)|
      && pinned + u >= NBUF && !HasRecyclable(bc.bufs)
    }

    lemma NoBuffer(held: set<nat>, u: nat, pinned: nat)
      requires Full(held, u, pinned)
      ensures !HasRecyclable(bc.bufs)
    {
    }

    /** The boot state before recovery: an empty cache over the disk image. */
    constructor Boot(image: Disk, g: Geometry, readers: nat)
      requires 1 <= g.size && g.start + g.size <= |image| <= 0x1_0000_0000
      ensures fresh(bc) && bc.disk == image && bc.issued == [] && this.g == g && this.readers == readers
      ensures Agree() && pin == map[] && Quiet(bc.bufs) && outstanding == 0 && !committing
    {
      bc := new BCache(Zeros(), image);
      this.g, this.readers := g, readers;
      lh, outstanding, committing, pin := [], 0, false, map[];
    }

    ghost function Sees(): seq<Block>
      reads this, bc
      requires Agree()
    {
      View(bc.bufs, bc.disk, pin)
    }

    /**
     bread: what the caller gets is the pending value of a logged block and the disk value
     of any other. No other buffer changes, and nobody's view changes.
     */
    method BRead(h: nat) returns (ok: bool, b: nat)
      requires Agree() && h < |bc.disk|
      requires forall c | 0 <= c < NBUF && Is(bc.bufs[c], ROOTDEV, h) :: !bc.bufs[c].locked
      modifies bc`bufs
      ensures Agree() && Sees() == old(Sees())
      ensures ok <==> old(IsCached(bc.bufs, ROOTDEV, h) || HasRecyclable(bc.bufs))
      ensures !ok ==> bc.bufs == old(bc.bufs)
      ensures ok ==> Took(old(bc.bufs), bc.bufs, b, h)
      ensures ok ==> bc.bufs[b].data == old(Sees())[h] && (bc.bufs[b].dirty <==> h in pin)
    {
      hide Linked, ByRecency;
      ghost var bufs0 := bc.bufs;
      ok, b := bc.BGet(ROOTDEV, h);
      if ok {
        AfterTaking(bufs0, bc.disk, pin, b, h);
        bc.LockAndRead(b);
        assert bc.bufs == bufs0[b := Taken(bufs0[b], bc.disk, h)];
      }
    }

    /** Reads two different blocks, in the given order, and holds both buffers beside those in `held`. */
    method BReadTwo(first: nat, second: nat, ghost held: set<nat>) returns (ok: bool, b: nat, c: nat)
      requires Agree() && Busy(bc.bufs, held) && Avoids(bc.bufs, held, first) && Avoids(bc.bufs, held, second)
      requires first < |bc.disk| && second < |bc.disk| && first != second
      modifies bc`bufs
      ensures Agree() && Sees() == old(Sees())
      ensures ok ==> HeldTwo(bc.bufs, held, b, c) && KeptHeld(old(bc.bufs), bc.bufs, held)
      ensures ok ==> bc.bufs[b].blockno == first && bc.bufs[b].data == Sees()[first]
      ensures ok ==> bc.bufs[c].blockno == second && bc.bufs[c].data == Sees()[second]
      ensures var n := |pin| + |Unpinned(old(bc.bufs), held)|;
              && (n < NBUF && (first in pin || second in pin) ==> ok) && (n + 2 <= NBUF ==> ok)
              && (n >= NBUF && first !in pin ==> !ok && bc.bufs == old(bc.bufs))
      ensures !ok ==> !HasRecyclable(bc.bufs)
    {
      hide Linked, ByRecency, UniqueIds, HeldTwo;
      FirstAvailable(bc.bufs, bc.disk, pin, held, first);
      ghost var bufs0 := bc.bufs;
      ghost var n := |pin| + |Unpinned(bufs0, held)|;
      ok, b := BRead(first);
      c := 0;
      if ok {
        ghost var bufs1 := bc.bufs;
        if (n < NBUF && (first in pin || second in pin)) || n + 2 <= NBUF {
          SecondAvailable(bufs0, bufs1, bc.disk, pin, held, b, first, second);
        }
        TookOne(bufs0, bufs1, held, b, first);
        ok, c := BRead(second);
        if ok {
          TookTwo(bufs0, bufs1, bc.bufs, held, b, c, first, second);
        }
      }
    }

    /** memmove(d->data, s->data); bwrite(d); brelse(s); brelse(d). */
    method CopyHeld(s: nat, d: nat)
      requires bc.Valid() && s < NBUF && d < NBUF && s != d && bc.bufs[s].locked && bc.bufs[d].locked
      requires bc.bufs[s].refcnt == bc.bufs[d].refcnt == 1 && bc.bufs[d].dev == ROOTDEV
      requires bc.bufs[d].blockno < |bc.disk|
      modifies bc
      ensures bc.Valid() && bc.bufs == Copied(old(bc.bufs), s, d)
      ensures bc.disk == old(bc.disk)[old(bc.bufs)[d].blockno := old(bc.bufs)[s].data]
      ensures bc.issued == old(bc.issued) + [DiskWrite(old(bc.bufs)[d].blockno, old(bc.bufs)[s].data)]
    {
      hide Linked, ByRecency, UniqueIds;
      bc.SetData(d, bc.bufs[s].data);
      bc.BWrite(d);
      bc.BRelse(s);
      bc.BRelse(d);
    }

    /**
     One iteration of write_log or install_trans: copy a block through the cache and write
     it. The write unpins its target; the view changes there and nowhere else.
     */
    method CopyBlock(src: nat, dst: nat, srcFirst: bool, ghost held: set<nat>) returns (ok: bool)
      requires Agree() && Busy(bc.bufs, held) && Avoids(bc.bufs, held, src) && Avoids(bc.bufs, held, dst)
      requires src < |bc.disk| && dst < |bc.disk| && src != dst
      modifies bc, this`pin
      ensures var n := |old(pin)| + |Unpinned(old(bc.bufs), held)|;
              && (n < NBUF && (src in old(pin) || dst in old(pin)) ==> ok) && (n + 2 <= NBUF ==> ok)
              && (n >= NBUF && (if srcFirst then src else dst) !in old(pin) ==> !ok && bc.bufs == old(bc.bufs))
      ensures !ok ==> !HasRecyclable(bc.bufs)
      ensures Agree()
      ensures ok ==> Busy(bc.bufs, held) && KeptHeld(old(bc.bufs), bc.bufs, held) && pin == old(pin) - {dst}
      ensures ok ==> bc.disk == old(bc.disk)[dst := old(Sees())[src]]
      ensures ok ==> bc.issued == old(bc.issued) + [DiskWrite(dst, old(Sees())[src])]
      ensures ok ==> Sees() == old(Sees())[dst := old(Sees())[src]]
      ensures !ok ==> bc.issued == old(bc.issued) && bc.disk == old(bc.disk) && pin == old(pin)
    {
      hide Linked, ByRecency, UniqueIds, Coherent;
      var s, d;
      if srcFirst {
        ok, s, d := BReadTwo(src, dst, held);
      } else {
        ok, d, s := BReadTwo(dst, src, held);
      }
      if ok {
        FinishCopy(s, d, held);
      }
    }

    method FinishCopy(s: nat, d: nat, ghost held: set<nat>)
      requires Agree() && HeldTwo(bc.bufs, held, s, d) && bc.bufs[s].blockno < |bc.disk|
      requires bc.bufs[s].data == Sees()[bc.bufs[s].blockno]
      modifies bc, this`pin
      ensures Agree() && Busy(bc.bufs, held) && KeptHeld(old(bc.bufs), bc.bufs, held)
      ensures var dst := old(bc.bufs)[d].blockno;
              && pin == old(pin) - {dst}
              && bc.disk == old(bc.disk)[dst := old(bc.bufs)[s].data]
              && bc.issued == old(bc.issued) + [DiskWrite(dst, old(bc.bufs)[s].data)]
              && Sees() == old(Sees())[dst := old(bc.bufs)[s].data]
    {
      AfterCopy(bc.bufs, bc.disk, pin, held, s, d);
      ViewAfterCopy(bc.bufs, bc.disk, pin, held, s, d);
      pin := pin - {bc.bufs[d].blockno};
      CopyHeld(s, d);
    }

    /**
     write_head: one block write, after which the on-disk header lists exactly lh. It panics
     exactly when the pinned blocks and the buffers in use leave no buffer.
     */
    method WriteHead(ghost held: set<nat>) returns (ok: bool, ghost hb: Block)
      requires Agree() && Busy(bc.bufs, held) && Avoids(bc.bufs, held, g.start) && Storable(lh)
      modifies bc
      ensures ok <==> |pin| + |Unpinned(old(bc.bufs), held)| < NBUF
      ensures Agree()
      ensures ok ==> Busy(bc.bufs, held) && KeptHeld(old(bc.bufs), bc.bufs, held) && HeaderList(hb) == lh
      ensures ok ==> bc.disk == old(bc.disk)[g.start := hb] && bc.issued == old(bc.issued) + [DiskWrite(g.start, hb)]
      ensures ok ==> Sees() == old(Sees())[g.start := hb]
      ensures !ok ==> bc.issued == old(bc.issued) && bc.disk == old(bc.disk) && bc.bufs == old(bc.bufs)
      ensures !ok ==> !HasRecyclable(bc.bufs)
    {
      FirstAvailable(bc.bufs, bc.disk, pin, held, g.start);
      ghost var bufs0 := bc.bufs;
      var b;
      ok, b := BRead(g.start);
      hb := Zeros();
      if ok {
        TookOne(bufs0, bc.bufs, held, b, g.start);
        var block := WriteHeader(bc.bufs[b].data, lh);
        AfterWriteBack(bc.bufs, bc.disk, pin, held, b, block);
        WriteBack(b, block);
        hb := block;
      }
    }

    method WriteBack(b: nat, data: Block)
      requires bc.Valid() && b < NBUF && bc.bufs[b].locked && bc.bufs[b].refcnt == 1
      requires bc.bufs[b].dev == ROOTDEV && bc.bufs[b].blockno < |bc.disk|
      modifies bc
      ensures bc.Valid() && bc.bufs == WrittenBack(old(bc.bufs), b, data)
      ensures bc.disk == old(bc.disk)[old(bc.bufs)[b].blockno := data]
      ensures bc.issued == old(bc.issued) + [DiskWrite(old(bc.bufs)[b].blockno, data)]
    {
      bc.SetData(b, data);
      bc.BWrite(b);
      bc.BRelse(b);
    }

    /** One step of a reader: take a buffer whose lock is free, or give one back. One that finds no buffer panics. */
    method ReaderStep(held: set<nat>) returns (held2: set<nat>)
      requires Agree() && Aside(held)
      modifies bc`bufs, bc`next, bc`prev, bc`order, bc`stamp, bc`clock
      ensures Agree() && Sees() == old(Sees()) && Aside(held2)
    {
      held2 := held;
      var h: nat, b: nat, take: bool := *, *, *;
      if take {
        var free := LockFree(h);
        if |held| < readers && h < |bc.disk| && !g.InLog(h) && free {
          held2 := Take(h, held);
        }
      } else if b < NBUF && bc.bufs[b].locked {
        held2 := Give(b, held);
      }
    }

    /** Nobody holds the lock of the buffer for h. */
    method LockFree(h: nat) returns (free: bool)
      requires bc.Valid()
      ensures free <==> forall c | 0 <= c < NBUF && Is(bc.bufs[c], ROOTDEV, h) :: !bc.bufs[c].locked
    {
      var c := 0;
      while c < NBUF
        invariant 0 <= c <= NBUF && forall d | 0 <= d < c && Is(bc.bufs[d], ROOTDEV, h) :: !bc.bufs[d].locked
      {
        if bc.bufs[c].locked && bc.bufs[c].dev == ROOTDEV && bc.bufs[c].blockno == h {
          return false;
        }
        c := c + 1;
      }
      free := true;
    }

    method Take(h: nat, held: set<nat>) returns (held2: set<nat>)
      requires Agree() && Aside(held) && |held| < readers && h < |bc.disk| && !g.InLog(h)
      requires forall c | 0 <= c < NBUF && Is(bc.bufs[c], ROOTDEV, h) :: !bc.bufs[c].locked
      modifies bc`bufs
      ensures Agree() && Sees() == old(Sees()) && Aside(held2)
    {
      hide Linked, ByRecency, UniqueIds;
      held2 := held;
      var ok, b := BRead(h);
      if ok {
        held2 := held + {b};
      }
    }

    method Give(b: nat, held: set<nat>) returns (held2: set<nat>)
      requires Agree() && Aside(held) && b < NBUF && bc.bufs[b].locked
      modifies bc`bufs, bc`next, bc`prev, bc`order, bc`stamp, bc`clock
      ensures Agree() && Sees() == old(Sees()) && held2 == held - {b} && Aside(held2)
      ensures KeptHeld(old(bc.bufs), bc.bufs, held2)
    {
      hide Linked, ByRecency, UniqueIds;
      held2 := held - {b};
      BRelse(b);
    }

    /**
     What happens between two steps of commit(): any number of steps of readers, until nobody
     uses the blocks x and y, for whose locks commit() waits. Nobody's view changes.
     */
    method Interfere(held: set<nat>, x: nat, y: nat) returns (held2: set<nat>)
      requires Agree() && Aside(held)
      modifies bc`bufs, bc`next, bc`prev, bc`order, bc`stamp, bc`clock
      ensures Agree() && Sees() == old(Sees()) && Aside(held2) && Avoids(bc.bufs, held2, x) && Avoids(bc.bufs, held2, y)
    {
      held2 := ReaderSteps(held);
      held2 := Vacate(held2, x, y);
    }

    /** Any number of steps of readers. */
    method ReaderSteps(held: set<nat>) returns (held2: set<nat>)
      requires Agree() && Aside(held)
      modifies bc`bufs, bc`next, bc`prev, bc`order, bc`stamp, bc`clock
      ensures Agree() && Sees() == old(Sees()) && Aside(held2)
    {
      hide Linked, ByRecency, UniqueIds, Coherent, Busy, View, ReadFor, Outside;
      held2 := held;
      var n: nat := *;
      while n > 0
        invariant Agree() && Sees() == old(Sees()) && Aside(held2)
        decreases n
      {
        held2 := ReaderStep(held2);
        n := n - 1;
      }
    }

    /** The readers of x and y give their buffers back. */
    method Vacate(held: set<nat>, x: nat, y: nat) returns (held2: set<nat>)
      requires Agree() && Aside(held)
      modifies bc`bufs, bc`next, bc`prev, bc`order, bc`stamp, bc`clock
      ensures Agree() && Sees() == old(Sees()) && Aside(held2) && Avoids(bc.bufs, held2, x) && Avoids(bc.bufs, held2, y)
    {
      hide Linked, ByRecency, UniqueIds, Coherent, Busy, View, Outside;
      held2 := held;
      var c := 0;
      while c < NBUF
        invariant 0 <= c <= NBUF && Agree() && Sees() == old(Sees()) && Aside(held2)
        invariant forall b | b in held2 && b < c :: bc.bufs[b].blockno != x && bc.bufs[b].blockno != y
      {
        if bc.bufs[c].locked && (bc.bufs[c].blockno == x || bc.bufs[c].blockno == y) {
          held2 := Give(c, held2);
        }
        c := c + 1;
      }
    }

    lemma FewOthers(held: set<nat>)
      requires Aside(held)
      ensures |Unpinned(bc.bufs, held)| <= readers
    {
      SubsetCard(Unpinned(bc.bufs, held), held);
    }

    /** Only `held` is in use, the logged blocks are pinned, and `vals` are their pending values. */
    ghost predicate Ready(vals: seq<Block>, held: set<nat>)
      reads this, bc
    {
      PinsLog() && Aside(held) && vals == Gather(Sees(), lh)
    }

    /** write_log: log block i gets the pending value of lh[i]. */
    method WriteLog(ghost vals: seq<Block>, held0: set<nat>)
      returns (ok: bool, held: set<nat>, ghost used: seq<nat>)
      requires Ready(vals, held0)
      modifies bc, this`pin
      ensures pin == old(pin) && (!ok ==> 1 <= |used| <= |lh|)
      ensures Traced(used, |lh|, if ok then |lh| else |used| - 1, ok, readers)
      ensures ok ==> Ready(vals, held)
      ensures !ok ==> Full(held, used[|used| - 1], |lh|)
      ensures Wrote(bc.issued, bc.disk, old(bc.issued), old(bc.disk), RawLog(g, vals), if ok then |lh| else |used| - 1)
    {
      hide Coherent, Linked, ByRecency, UniqueIds, Busy, Wrote, Traced, Full;
      ghost var issued0, disk0, raw := bc.issued, bc.disk, RawLog(g, vals);
      WroteNone(issued0, disk0, raw);
      held, used := held0, [];
      TracedNothing(|lh|, readers);
      var tail := 0;
      while tail < |lh|
        invariant 0 <= tail <= |lh| && |used| == tail
        invariant Ready(vals, held) && pin == old(pin)
        invariant Traced(used, |lh|, tail, true, readers)
        invariant Wrote(bc.issued, bc.disk, issued0, disk0, raw, tail)
      {
        WroteStep(bc.issued, bc.disk, issued0, disk0, raw, tail);
        ghost var u;
        ok, held, u := LogOne(tail, vals, raw[tail], held);
        TracedMore(used, |lh|, tail, u, ok, readers);
        used := used + [u];
        if !ok {
          return;
        }
        tail := tail + 1;
      }
      ok := true;
    }

    /** One iteration of write_log, while others use u buffers beside the pinned ones. */
    method LogOne(tail: nat, ghost vals: seq<Block>, ghost w: DiskWrite<Block>, held0: set<nat>)
      returns (ok: bool, held: set<nat>, ghost u: nat)
      requires Ready(vals, held0) && tail < |lh|
      requires w == DiskWrite(g.start + 1 + tail, vals[tail])
      modifies bc, this`pin
      ensures u == |Unpinned(bc.bufs, held)| <= readers && (ok <==> |lh| + u < NBUF)
      ensures ok ==> bc.issued == old(bc.issued) + [w] && bc.disk == old(bc.disk)[w.bn := w.data]
      ensures pin == old(pin)
      ensures ok ==> Ready(vals, held)
      ensures !ok ==> bc.issued == old(bc.issued) && bc.disk == old(bc.disk) && Full(held, u, |lh|)
    {
      hide Coherent, Linked, ByRecency, UniqueIds;
      var dst := g.start + 1 + tail;
      held := Interfere(held0, dst, lh[tail]);
      u := |Unpinned(bc.bufs, held)|;
      assert lh[tail] in pin && dst !in pin;
      assert pin - {dst} == pin;
      assert w == DiskWrite(dst, Sees()[lh[tail]]);
      GatherElsewhere(Sees(), lh, dst, w.data);
      FewOthers(held);
      ghost var bufs0 := bc.bufs;
      ok := CopyBlock(lh[tail], dst, false, held);
      if ok {
        KeptUnpinned(bufs0, bc.bufs, held);
      }
    }

    /** The rest of the list, from position `tail` on, is what is still pinned; or nothing ever was. */
    ghost predicate PinsRest(tail: nat, pinned: bool, held: set<nat>)
      reads this, bc
    {
      && Agree() && Aside(held) && Loggable(lh, g, |bc.disk|) && tail <= |lh|
      && (if pinned then (forall i | tail <= i < |lh| :: lh[i] in pin) && |pin| + tail == |lh|
          else pin == map[] && held == {})
    }

    /** One iteration of install_trans: after boot nobody else uses the cache. */
    method InstallOne(tail: nat, ghost vals: seq<Block>, ghost w: DiskWrite<Block>, pinned: bool, held0: set<nat>)
      returns (ok: bool, held: set<nat>, ghost u: nat)
      requires PinsRest(tail, pinned, held0) && tail < |lh| && |vals| == |lh| && LogHolds(bc.disk, g, vals)
      requires w == DiskWrite(lh[tail], vals[tail])
      modifies bc, this`pin
      ensures u == |Unpinned(bc.bufs, held)| <= readers && (ok <==> !pinned || |lh| - tail + u < NBUF)
      ensures ok ==> PinsRest(tail + 1, pinned, held) && LogHolds(bc.disk, g, vals)
      ensures ok ==> bc.issued == old(bc.issued) + [w] && bc.disk == old(bc.disk)[w.bn := w.data]
      ensures !ok ==> bc.issued == old(bc.issued) && bc.disk == old(bc.disk) && Full(held, u, |lh| - tail)
    {
      hide Coherent, Linked, ByRecency, UniqueIds, Busy, LogHolds, Avoids, Full;
      held := held0;
      if pinned {
        held := Interfere(held, g.start + 1 + tail, lh[tail]);
      } else {
        NobodyElse(g.start + 1 + tail);
        NobodyElse(lh[tail]);
      }
      u := |Unpinned(bc.bufs, held)|;
      FewOthers(held);
      ok := InstallCopy(tail, vals, w, pinned, held);
    }

    lemma NobodyElse(h: nat)
      ensures Avoids(bc.bufs, {}, h) && Unpinned(bc.bufs, {}) == {}
    {
    }

    method InstallCopy(tail: nat, ghost vals: seq<Block>, ghost w: DiskWrite<Block>, ghost pinned: bool,
                       ghost held: set<nat>)
      returns (ok: bool)
      requires PinsRest(tail, pinned, held) && tail < |lh| && |vals| == |lh| && LogHolds(bc.disk, g, vals)
      requires Avoids(bc.bufs, held, g.start + 1 + tail) && Avoids(bc.bufs, held, lh[tail])
      requires w == DiskWrite(lh[tail], vals[tail])
      modifies bc, this`pin
      ensures ok <==> !pinned || |lh| - tail + |Unpinned(old(bc.bufs), held)| < NBUF
      ensures Unpinned(bc.bufs, held) == Unpinned(old(bc.bufs), held)
      ensures ok ==> PinsRest(tail + 1, pinned, held) && LogHolds(bc.disk, g, vals)
      ensures ok ==> bc.issued == old(bc.issued) + [w] && bc.disk == old(bc.disk)[w.bn := w.data]
      ensures !ok ==> bc.issued == old(bc.issued) && bc.disk == old(bc.disk)
      ensures !ok ==> Full(held, |Unpinned(bc.bufs, held)|, |lh| - tail)
    {
      hide Coherent, Linked, ByRecency, UniqueIds;
      var src := g.start + 1 + tail;
      assert src !in pin;
      assert w == DiskWrite(lh[tail], Sees()[src]);
      LogHoldsElsewhere(bc.disk, g, vals, lh[tail], w.data);
      if !pinned {
        NobodyElse(src);
      }
      ghost var bufs0 := bc.bufs;
      ok := CopyBlock(src, lh[tail], true, held);
      if ok {
        KeptUnpinned(bufs0, bc.bufs, held);
      }
      assert ok && pinned ==> pin.Keys == old(pin).Keys - {lh[tail]};
      assert ok && !pinned ==> pin == map[];
    }

    /** install_trans: home block lh[i] gets the value of log block i. used0 traces commit() so far. */
    method InstallTrans(ghost vals: seq<Block>, pinned: bool, held0: set<nat>, ghost used0: seq<nat>)
      returns (ok: bool, held: set<nat>, ghost used: seq<nat>)
      requires PinsRest(0, pinned, held0) && |vals| == |lh| && LogHolds(bc.disk, g, vals)
      requires pinned ==> Traced(used0, |lh|, |lh| + 1, true, readers)
      modifies bc, this`pin
      ensures ok ==> Agree() && Aside(held) && pin == map[] && LogHolds(bc.disk, g, vals) && (!pinned ==> held == {})
      ensures !pinned ==> ok
      ensures ok ==> Wrote(bc.issued, bc.disk, old(bc.issued), old(bc.disk), RawInstalls(lh, vals), |lh|)
      ensures ok && pinned ==> Traced(used, |lh|, 2 * |lh| + 1, true, readers)
      ensures !ok ==> |lh| + 1 < |used| <= 2 * |lh| + 1 && Traced(used, |lh|, |used| - 1, false, readers)
      ensures !ok ==> Full(held, used[|used| - 1], PinnedAt(|lh|, |used| - 1))
      ensures !ok ==> Wrote(bc.issued, bc.disk, old(bc.issued), old(bc.disk), RawInstalls(lh, vals), |used| - |lh| - 2)
    {
      hide Coherent, Linked, ByRecency, UniqueIds, Busy, Wrote, Traced, LogHolds, Outside, Distinct, ReadFor, Full,
           PinnedAt;
      ghost var issued0, disk0, raw := bc.issued, bc.disk, RawInstalls(lh, vals);
      WroteNone(issued0, disk0, raw);
      held, used := held0, used0;
      if pinned {
        TracedLength(used, |lh|, |lh| + 1, true, readers);
      }
      var tail := 0;
      ok := true;
      while tail < |lh|
        invariant 0 <= tail <= |lh|
        invariant PinsRest(tail, pinned, held) && LogHolds(bc.disk, g, vals)
        invariant pinned ==> |used| == |lh| + 1 + tail && Traced(used, |lh|, |lh| + 1 + tail, true, readers)
        invariant Wrote(bc.issued, bc.disk, issued0, disk0, raw, tail)
      {
        WroteStep(bc.issued, bc.disk, issued0, disk0, raw, tail);
        ghost var u;
        ok, held, u := InstallOne(tail, vals, raw[tail], pinned, held);
        if pinned {
          StillPinned(|lh|, tail);
          TracedMore(used, |lh|, |lh| + 1 + tail, u, ok, readers);
        }
        used := used + [u];
        if !ok {
          return;
        }
        tail := tail + 1;
      }
      ok := true;
      assert |pin| == 0 ==> pin == map[];
    }

    /**
     commit(), while others come and go between its steps. It panics for want of a buffer
     exactly at the first write for which the blocks still pinned and the buffers in use by
     others take up the whole cache (Traced, Full), and never if the listed blocks leave room
     for all readers. The writes it sent are in any case the first ones of the commit sequence
     for the pending values; if it got through, all of them, and then every home block on disk
     holds its pending value, nothing is pinned, the on-disk header is empty, and the readers
     still see what they did.
     */
    method Commit(held0: set<nat>)
      returns (ok: bool, ghost raw: seq<DiskWrite<Block>>, ghost used: seq<nat>, held: set<nat>)
      requires Valid() && Aside(held0)
      modifies bc, this`pin, this`lh
      ensures Wrote(bc.issued, bc.disk, old(bc.issued), old(bc.disk), raw, |raw|)
      ensures old(lh) == [] ==> ok && raw == []
      ensures |old(lh)| + readers < NBUF ==> ok
      ensures old(lh) != [] ==> (ok <==> |raw| == 2 * |old(lh)| + 2) && Traced(used, |old(lh)|, |raw|, ok, readers)
      ensures !ok ==> Traced(used, |old(lh)|, |raw|, ok, readers) && Full(held, used[|raw|], PinnedAt(|old(lh)|, |raw|))
      ensures old(lh) != [] ==> |raw| <= 2 * |old(lh)| + 2
                                && Decoded(raw, g, HeaderList)
                                     == CommitWrites(g, old(lh), Gather(old(Sees()), old(lh)))[..|raw|]
      ensures ok ==> Valid() && Aside(held) && lh == [] && pin == map[] && SameHome(bc.disk, g, old(Sees()))
    {
      hide Coherent, Linked, ByRecency, UniqueIds, Wrote, Decoded, CommitWrites, Full;
      SeesUpdated(Gather(Sees(), lh));
      held, used := held0, [];
      if |lh| > 0 {
        ghost var n := |lh|;
        ok, raw, used, held := CommitLogged(Gather(Sees(), lh), Sees(), held);
        if n + readers < NBUF {
          NothingStops(used, n, |raw|, ok, readers);
        }
      } else {
        ok, raw := true, [];
        WroteNone(bc.issued, bc.disk, raw);
      }
    }

    /** commit() of a transaction that logged something. */
    method CommitLogged(ghost vals: seq<Block>, ghost new_: Disk, held0: set<nat>)
      returns (ok: bool, ghost raw: seq<DiskWrite<Block>>, ghost used: seq<nat>, held: set<nat>)
      requires Ready(vals, held0) && lh != [] && Updated(bc.disk, g, lh, vals, new_)
      requires HeaderList(bc.disk[g.start]) == []
      modifies bc, this`pin, this`lh
      ensures Wrote(bc.issued, bc.disk, old(bc.issued), old(bc.disk), raw, |raw|)
      ensures (ok <==> |raw| == 2 * |old(lh)| + 2) && Traced(used, |old(lh)|, |raw|, ok, readers)
      ensures !ok ==> |used| == |raw| + 1 && Full(held, used[|raw|], PinnedAt(|old(lh)|, |raw|))
      ensures |raw| <= 2 * |old(lh)| + 2 && Decoded(raw, g, HeaderList) == CommitWrites(g, old(lh), vals)[..|raw|]
      ensures ok ==> Agree() && Aside(held) && lh == [] && pin == map[]
      ensures ok ==> HeaderList(bc.disk[g.start]) == [] && SameHome(bc.disk, g, new_)
    {
      hide Coherent, Linked, ByRecency, UniqueIds, Busy, Wrote, Traced, Decoded, CommitWrites, RawLog, Updated, Full;
      ghost var i0, d0, lh0 := bc.issued, bc.disk, lh;
      ok, held, used := WriteLog(vals, held0);
      if !ok {
        raw := StoppedInLog(i0, d0, vals, |used| - 1);
        return;
      }
      ghost var h1, h2;
      ok, held, used, h1, h2, raw := FinishCommit(vals, i0, d0, held, used);
      if ok {
        CommitEffect(i0, d0, bc.issued, bc.disk, g, HeaderList, lh0, vals, h1, h2, new_);
        WholeCommit(g, lh0, vals);
      }
    }

    lemma StoppedInLog(i0: seq<DiskWrite<Block>>, d0: Disk, vals: seq<Block>, k: nat)
      returns (raw: seq<DiskWrite<Block>>)
      requires |vals| == |lh| && k <= |vals| && Wrote(bc.issued, bc.disk, i0, d0, RawLog(g, vals), k)
      ensures |raw| == k && Wrote(bc.issued, bc.disk, i0, d0, raw, |raw|)
      ensures Decoded(raw, g, HeaderList) == CommitWrites(g, lh, vals)[..|raw|]
    {
      raw := RawLog(g, vals)[..k];
      WrotePart(bc.issued, bc.disk, i0, d0, RawLog(g, vals), k);
      DecodedLog(g, HeaderList, lh, vals, k);
    }

    lemma SeesUpdated(vals: seq<Block>)
      requires PinsLog() && vals == Gather(Sees(), lh)
      ensures Updated(bc.disk, g, lh, vals, Sees())
      ensures lh == [] ==> pin == map[] && Sees() == bc.disk
    {
      PinnedAreListed();
    }

    /** The rest of commit() after write_log. */
    method FinishCommit(ghost vals: seq<Block>, ghost i0: seq<DiskWrite<Block>>, ghost d0: Disk, held0: set<nat>,
                        ghost used0: seq<nat>)
      returns (ok: bool, held: set<nat>, ghost used: seq<nat>, ghost h1: Block, ghost h2: Block,
               ghost raw: seq<DiskWrite<Block>>)
      requires Ready(vals, held0) && Traced(used0, |lh|, |lh|, true, readers)
      requires Wrote(bc.issued, bc.disk, i0, d0, RawLog(g, vals), |lh|)
      modifies bc, this`pin, this`lh
      ensures Wrote(bc.issued, bc.disk, i0, d0, raw, |raw|) && Traced(used, |old(lh)|, |raw|, ok, readers)
      ensures !ok ==> |used| == |raw| + 1 && Full(held, used[|raw|], PinnedAt(|old(lh)|, |raw|))
      ensures ok ==> Agree() && Aside(held) && lh == [] && pin == map[]
      ensures ok ==> HeaderList(h1) == old(lh) && HeaderList(h2) == [] && raw == RawCommit(g, old(lh), vals, h1, h2)
      ensures !ok ==> |raw| < 2 * |old(lh)| + 2
      ensures !ok ==> Decoded(raw, g, HeaderList) == CommitWrites(g, old(lh), vals)[..|raw|]
    {
      hide Coherent, Linked, ByRecency, UniqueIds, Busy, Wrote, Traced, Decoded, CommitWrites, RawApply, Full;
      ghost var i1, d1, u := bc.issued, bc.disk, 0;
      LogWrittenOut(d0, d1, i0, i1, vals);
      ok, h1, held, u := HeadOne(held0);
      h2 := h1;
      TracedMore(used0, |lh|, |lh|, u, ok, readers);
      TracedLength(used0, |lh|, |lh|, true, readers);
      used := used0 + [u];
      if !ok {
        raw := StoppedInLog(i0, d0, vals, |lh|);
        return;
      }
      WroteOne(i1, d1, DiskWrite(g.start, h1));
      WroteThen(i0, d0, RawLog(g, vals), i1, d1, [DiskWrite(g.start, h1)], bc.issued, bc.disk);
      LogHoldsElsewhere(d1, g, vals, g.start, h1);
      ok, held, used, h2, raw := InstallAndClear(vals, h1, i0, d0, held, used);
    }

    lemma LogWrittenOut(d0: Disk, d1: Disk, i0: seq<DiskWrite<Block>>, i1: seq<DiskWrite<Block>>, vals: seq<Block>)
      requires |vals| < g.size && g.start + g.size <= |d1| && Wrote(i1, d1, i0, d0, RawLog(g, vals), |vals|)
      ensures LogHolds(d1, g, vals)
    {
      LogFilled(d0, g, vals, |vals|);
      assert vals[..|vals|] == vals;
    }

    /** write_head, while others use u buffers beside the pinned ones. */
    method HeadOne(held0: set<nat>) returns (ok: bool, ghost hb: Block, held: set<nat>, ghost u: nat)
      requires Agree() && Aside(held0) && Storable(lh)
      modifies bc
      ensures u == |Unpinned(bc.bufs, held)| <= readers && (ok <==> |pin| + u < NBUF)
      ensures ok ==> Agree() && Aside(held) && HeaderList(hb) == lh
      ensures ok ==> bc.disk == old(bc.disk)[g.start := hb] && bc.issued == old(bc.issued) + [DiskWrite(g.start, hb)]
      ensures ok ==> Sees() == old(Sees())[g.start := hb]
      ensures !ok ==> bc.issued == old(bc.issued) && bc.disk == old(bc.disk) && Full(held, u, |pin|)
    {
      hide Coherent, Linked, ByRecency, UniqueIds, HeaderList;
      held := Interfere(held0, g.start, g.start);
      u := |Unpinned(bc.bufs, held)|;
      FewOthers(held);
      ghost var bufs0 := bc.bufs;
      ok, hb := WriteHead(held);
      if ok {
        KeptUnpinned(bufs0, bc.bufs, held);
      }
    }

    /** install_trans; lh.n = 0; write_head. */
    method InstallAndClear(ghost vals: seq<Block>, ghost h1: Block, ghost i0: seq<DiskWrite<Block>>, ghost d0: Disk,
                           held0: set<nat>, ghost used0: seq<nat>)
      returns (ok: bool, held: set<nat>, ghost used: seq<nat>, ghost h2: Block, ghost raw: seq<DiskWrite<Block>>)
      requires PinsRest(0, true, held0) && |vals| == |lh| && LogHolds(bc.disk, g, vals) && HeaderList(h1) == lh
      requires var done := RawLog(g, vals) + [DiskWrite(g.start, h1)]; Wrote(bc.issued, bc.disk, i0, d0, done, |done|)
      requires Traced(used0, |lh|, |lh| + 1, true, readers)
      modifies bc, this`pin, this`lh
      ensures Wrote(bc.issued, bc.disk, i0, d0, raw, |raw|) && Traced(used, |old(lh)|, |raw|, ok, readers)
      ensures !ok ==> |used| == |raw| + 1 && Full(held, used[|raw|], PinnedAt(|old(lh)|, |raw|))
      ensures ok ==> Agree() && Aside(held) && lh == [] && pin == map[]
      ensures ok ==> HeaderList(h2) == [] && raw == RawCommit(g, old(lh), vals, h1, h2)
      ensures !ok ==> |raw| < 2 * |old(lh)| + 2
      ensures !ok ==> Decoded(raw, g, HeaderList) == CommitWrites(g, old(lh), vals)[..|raw|]
    {
      hide Coherent, Linked, ByRecency, UniqueIds, Busy, Wrote, Traced, Decoded, CommitWrites, RawApply, HeaderList,
           LogHolds, View, Full;
      ghost var i2, d2 := bc.issued, bc.disk;
      ghost var done := RawLog(g, vals) + [DiskWrite(g.start, h1)];
      h2 := h1;
      ok, held, used := InstallTrans(vals, true, held0, used0);
      if !ok {
        raw := StoppedInstalling(vals, h1, i0, d0, i2, d2, |used| - |lh| - 2);
        return;
      }
      WroteThen(i0, d0, done, i2, d2, RawInstalls(lh, vals), bc.issued, bc.disk);
      ok, held, used, h2, raw := ClearLog(vals, h1, i0, d0, held, used, |d2|);
    }

    /** lh.n = 0; write_head. */
    method ClearLog(ghost vals: seq<Block>, ghost h1: Block, ghost i0: seq<DiskWrite<Block>>, ghost d0: Disk,
                    held0: set<nat>, ghost used0: seq<nat>, ghost size: nat)
      returns (ok: bool, held: set<nat>, ghost used: seq<nat>, ghost h2: Block, ghost raw: seq<DiskWrite<Block>>)
      requires Agree() && Aside(held0) && pin == map[] && Loggable(lh, g, size)
      requires |vals| == |lh| && HeaderList(h1) == lh
      requires var done := RawLog(g, vals) + [DiskWrite(g.start, h1)] + RawInstalls(lh, vals);
               Wrote(bc.issued, bc.disk, i0, d0, done, |done|)
      requires Traced(used0, |lh|, 2 * |lh| + 1, true, readers)
      modifies bc, this`lh
      ensures Wrote(bc.issued, bc.disk, i0, d0, raw, |raw|) && Traced(used, |old(lh)|, |raw|, ok, readers)
      ensures !ok ==> |used| == |raw| + 1 && Full(held, used[|raw|], PinnedAt(|old(lh)|, |raw|))
      ensures ok ==> Agree() && Aside(held) && lh == []
      ensures ok ==> HeaderList(h2) == [] && raw == RawCommit(g, old(lh), vals, h1, h2)
      ensures !ok ==> |raw| < 2 * |old(lh)| + 2
      ensures !ok ==> Decoded(raw, g, HeaderList) == CommitWrites(g, old(lh), vals)[..|raw|]
    {
      hide Coherent, Linked, ByRecency, UniqueIds, Busy, Wrote, Traced, Decoded, CommitWrites, RawApply, HeaderList,
           View, Full, Loggable;
      ghost var i3, d3, lh0, u := bc.issued, bc.disk, lh, 0;
      lh := [];
      ok, h2, held, u := HeadOne(held0);
      TracedMore(used0, |lh0|, 2 * |lh0| + 1, u, ok, readers);
      TracedLength(used0, |lh0|, 2 * |lh0| + 1, true, readers);
      used := used0 + [u];
      raw := RawLog(g, vals) + [DiskWrite(g.start, h1)] + RawInstalls(lh0, vals);
      if ok {
        WroteOne(i3, d3, DiskWrite(g.start, h2));
        WroteThen(i0, d0, raw, i3, d3, [DiskWrite(g.start, h2)], bc.issued, bc.disk);
        raw := raw + [DiskWrite(g.start, h2)];
      } else {
        AllInstalled(lh0, vals, h1, size);
      }
    }

    lemma AllInstalled(lh0: seq<nat>, vals: seq<Block>, h1: Block, size: nat)
      requires Loggable(lh0, g, size) && |vals| == |lh0| && HeaderList(h1) == lh0
      ensures var raw := RawLog(g, vals) + [DiskWrite(g.start, h1)] + RawInstalls(lh0, vals);
              Decoded(raw, g, HeaderList) == CommitWrites(g, lh0, vals)[..|raw|]
    {
      DecodedInstalls(g, HeaderList, lh0, vals, h1, |lh0|, size);
      assert RawInstalls(lh0, vals)[..|lh0|] == RawInstalls(lh0, vals);
    }

    lemma StoppedInstalling(vals: seq<Block>, h1: Block, i0: seq<DiskWrite<Block>>, d0: Disk,
                            i2: seq<DiskWrite<Block>>, d2: Disk, k: nat) returns (raw: seq<DiskWrite<Block>>)
      requires Loggable(lh, g, |d2|) && |vals| == |lh| && HeaderList(h1) == lh && k <= |lh|
      requires var done := RawLog(g, vals) + [DiskWrite(g.start, h1)]; Wrote(i2, d2, i0, d0, done, |done|)
      requires Wrote(bc.issued, bc.disk, i2, d2, RawInstalls(lh, vals), k)
      ensures |raw| == |lh| + 1 + k && Wrote(bc.issued, bc.disk, i0, d0, raw, |raw|)
      ensures Decoded(raw, g, HeaderList) == CommitWrites(g, lh, vals)[..|raw|]
    {
      hide RawApply, Decoded, CommitWrites;
      var done := RawLog(g, vals) + [DiskWrite(g.start, h1)];
      var part := RawInstalls(lh, vals)[..k];
      WrotePart(bc.issued, bc.disk, i2, d2, RawInstalls(lh, vals), k);
      WroteThen(i0, d0, done, i2, d2, part, bc.issued, bc.disk);
      DecodedInstalls(g, HeaderList, lh, vals, h1, k, |d2|);
      raw := done + part;
    }

    /** brelse by a client that has logged what it changed. */
    method BRelse(b: nat)
      requires Agree() && b < NBUF && bc.bufs[b].locked && bc.bufs[b].dev == ROOTDEV
      requires bc.bufs[b].dirty || bc.bufs[b].data == bc.disk[bc.bufs[b].blockno]
      modifies bc`bufs, bc`next, bc`prev, bc`order, bc`stamp, bc`clock
      ensures bc.bufs == old(bc.bufs)[b := old(bc.bufs)[b].(locked := false, refcnt := old(bc.bufs)[b].refcnt - 1)]
      ensures Agree() && Sees() == old(Sees())
    {
      hide Linked, ByRecency, UniqueIds;
      AfterRelease(bc.bufs, bc.disk, pin, b);
      bc.BRelse(b);
    }

    /** A client changes the data of a buffer it holds. */
    method Modify(b: nat, data: Block)
      requires Agree() && b < NBUF && bc.bufs[b].locked && bc.bufs[b].dev == ROOTDEV
      modifies bc`bufs
      ensures Agree()
      ensures Sees() == if bc.bufs[b].dirty then old(Sees())[bc.bufs[b].blockno := data] else old(Sees())
      ensures bc.bufs == old(bc.bufs)[b := old(bc.bufs)[b].(data := data)]
    {
      AfterModify(bc.bufs, bc.disk, pin, b, data);
      bc.SetData(b, data);
    }

    /**
     log_write: refused (a panic) exactly when the log is at its limit or no operation is
     running, even if the block is already logged. Otherwise the block is listed once, its
     buffer is pinned, and its data is the pending value that every reader sees.
     */
    method LogWrite(b: nat) returns (ok: bool)
      requires Valid() && b < NBUF && bc.bufs[b].locked && bc.bufs[b].valid && bc.bufs[b].dev == ROOTDEV
      requires !g.InLog(bc.bufs[b].blockno)
      modifies bc`bufs, this`lh, this`pin
      ensures ok <==> |old(lh)| < LOGSIZE && |old(lh)| < g.size - 1 && outstanding >= 1
      ensures Valid()
      ensures !ok ==> lh == old(lh) && bc.bufs == old(bc.bufs) && pin == old(pin)
      ensures ok ==> lh == if bc.bufs[b].blockno in old(lh) then old(lh) else old(lh) + [bc.bufs[b].blockno]
      ensures ok ==> bc.bufs == old(bc.bufs)[b := old(bc.bufs)[b].(dirty := true)]
      ensures ok ==> Sees() == old(Sees())[bc.bufs[b].blockno := bc.bufs[b].data]
    {
      if |lh| >= LOGSIZE || |lh| >= g.size - 1 || outstanding < 1 {
        return false;
      }
      Append(b);
      ok := true;
    }

    /** log_write past its checks. */
    method Append(b: nat)
      requires Valid() && b < NBUF && bc.bufs[b].locked && bc.bufs[b].valid && bc.bufs[b].dev == ROOTDEV
      requires !g.InLog(bc.bufs[b].blockno) && |lh| < LOGSIZE && |lh| < g.size - 1 && outstanding >= 1
      modifies bc`bufs, this`lh, this`pin
      ensures Valid()
      ensures lh == if bc.bufs[b].blockno in old(lh) then old(lh) else old(lh) + [bc.bufs[b].blockno]
      ensures bc.bufs == old(bc.bufs)[b := old(bc.bufs)[b].(dirty := true)]
      ensures Sees() == old(Sees())[bc.bufs[b].blockno := bc.bufs[b].data]
    {
      hide Linked, ByRecency, UniqueIds, Coherent, HeaderList, Lists, Outside, View, ViewAt;
      var lh2 := ListedWith(bc.bufs[b].blockno);
      PinOne(b, lh2);
      Pin(b, lh2, Sees()[bc.bufs[b].blockno := bc.bufs[b].data]);
    }

    /** The stores of log_write: the list and B_DIRTY. */
    method Pin(b: nat, lh2: seq<nat>, ghost seen: seq<Block>)
      requires Valid() && b < NBUF && bc.bufs[b].locked && outstanding >= 1
      requires var pin2, bufs2 := pin[bc.bufs[b].blockno := b], bc.bufs[b := bc.bufs[b].(dirty := true)];
               && Coherent(bufs2, bc.disk, pin2) && View(bufs2, bc.disk, pin2) == seen
               && Lists(lh2, pin2, g, |bc.disk|) && Outside(pin2, g, |bc.disk|)
      modifies bc`bufs, this`lh, this`pin
      ensures Valid() && lh == lh2 && bc.bufs == old(bc.bufs)[b := old(bc.bufs)[b].(dirty := true)] && Sees() == seen
    {
      hide Linked, ByRecency, UniqueIds, Coherent, HeaderList, Lists, Outside, View, ViewAt;
      lh, pin := lh2, pin[bc.bufs[b].blockno := b];
      bc.SetDirty(b);
    }

    /** What log_write leaves behind, on values. */
    lemma PinOne(b: nat, lh2: seq<nat>)
      requires Valid() && b < NBUF && bc.bufs[b].locked && bc.bufs[b].valid && bc.bufs[b].dev == ROOTDEV
      requires !g.InLog(bc.bufs[b].blockno) && |lh| < LOGSIZE && |lh| < g.size - 1
      requires lh2 == if bc.bufs[b].blockno in lh then lh else lh + [bc.bufs[b].blockno]
      ensures var pin2 := pin[bc.bufs[b].blockno := b];
              var bufs2 := bc.bufs[b := bc.bufs[b].(dirty := true)];
              && Coherent(bufs2, bc.disk, pin2)
              && View(bufs2, bc.disk, pin2) == Sees()[bc.bufs[b].blockno := bc.bufs[b].data]
              && Lists(lh2, pin2, g, |bc.disk|) && Outside(pin2, g, |bc.disk|)
    {
      PinnedAreListed();
      ListOne(lh, pin, g, |bc.disk|, bc.bufs[b].blockno, b);
      AfterPin(bc.bufs, bc.disk, pin, b);
    }

    /** The absorption loop of log_write and the store after it: block[i] = bn, and n++ if i == n. */
    method ListedWith(bn: nat) returns (r: seq<nat>)
      ensures r == if bn in lh then lh else lh + [bn]
    {
      var i := 0;
      while i < |lh|
        invariant i <= |lh| && forall j | 0 <= j < i :: lh[j] != bn
      {
        if lh[i] == bn {
          break;
        }
        i := i + 1;
      }
      r := if i < |lh| then lh[i := bn] else lh + [bn];
    }

    /**
     How the file system changes a block: bread, store, log_write, brelse, while others use the
     buffers `held`. It panics exactly when bread finds no buffer or log_write refuses;
     otherwise the new contents are what everybody sees from then on.
     */
    method Update(h: nat, data: Block, ghost held: set<nat>) returns (ok: bool)
      requires Valid() && h < |bc.disk| && !g.InLog(h) && Busy(bc.bufs, held) && Avoids(bc.bufs, held, h)
      modifies bc, this`lh, this`pin
      ensures ok <==> old(IsCached(bc.bufs, ROOTDEV, h) || HasRecyclable(bc.bufs))
                      && |old(lh)| < LOGSIZE && |old(lh)| < g.size - 1 && outstanding >= 1
      ensures ok ==> Valid() && Busy(bc.bufs, held) && KeptHeld(old(bc.bufs), bc.bufs, held)
      ensures ok ==> Sees() == old(Sees())[h := data] && lh == if h in old(lh) then old(lh) else old(lh) + [h]
      ensures !ok && |old(lh)| < LOGSIZE && |old(lh)| < g.size - 1 && outstanding >= 1 ==>
                Valid() && bc.bufs == old(bc.bufs) && pin == old(pin) && lh == old(lh)
      ensures bc.disk == old(bc.disk) && bc.issued == old(bc.issued)
    {
      hide Coherent, Linked, ByRecency, UniqueIds, Lists, Outside, HeaderList;
      hide View, ViewAt;
      ghost var bufs0 := bc.bufs;
      NobodyHas(h, held);
      var b;
      ok, b := BRead(h);
      if ok {
        TookOne(bufs0, bc.bufs, held, b, h);
        ok := Change(b, data, held);
      }
    }

    lemma NobodyHas(h: nat, held: set<nat>)
      requires bc.Valid() && Busy(bc.bufs, held) && Avoids(bc.bufs, held, h)
      ensures forall c | 0 <= c < NBUF && Is(bc.bufs[c], ROOTDEV, h) :: !bc.bufs[c].locked
    {
    }

    /** The change itself, in a buffer that nobody else has. */
    method Change(b: nat, data: Block, ghost held: set<nat>) returns (ok: bool)
      requires Valid() && b < NBUF && bc.bufs[b].locked && bc.bufs[b].valid && bc.bufs[b].dev == ROOTDEV
      requires !g.InLog(bc.bufs[b].blockno)
      requires b !in held && Busy(bc.bufs, held + {b}) && bc.bufs[b].refcnt == 1
      modifies bc, this`lh, this`pin
      ensures ok <==> |old(lh)| < LOGSIZE && |old(lh)| < g.size - 1 && outstanding >= 1
      ensures var h := old(bc.bufs)[b].blockno;
              && (ok ==> Valid() && Busy(bc.bufs, held) && KeptHeld(old(bc.bufs), bc.bufs, held))
              && (ok ==> Sees() == old(Sees())[h := data] && lh == if h in old(lh) then old(lh) else old(lh) + [h])
      ensures bc.disk == old(bc.disk) && bc.issued == old(bc.issued)
    {
      hide Coherent, Linked, ByRecency, UniqueIds, Lists, Outside, HeaderList, View, ViewAt;
      Modify(b, data);
      ok := LogWrite(b);
      if ok {
        BRelse(b);
      }
    }

    /** begin_op: false means that the caller sleeps and tries again. */
    method BeginOp() returns (ok: bool)
      requires Valid()
      modifies this`outstanding
      ensures Valid()
      ensures ok <==> !committing && |lh| + (old(outstanding) + 1) * MAXOPBLOCKS <= LOGSIZE
      ensures outstanding == old(outstanding) + if ok then 1 else 0
    {
      ok := !committing && |lh| + (outstanding + 1) * MAXOPBLOCKS <= LOGSIZE;
      if ok {
        outstanding := outstanding + 1;
      }
    }

    /** end_op: the last operation out commits everything that was logged, while others come and go. */
    method EndOp(held0: set<nat>)
      returns (ok: bool, ghost raw: seq<DiskWrite<Block>>, ghost used: seq<nat>, held: set<nat>)
      requires Valid() && outstanding >= 1 && (outstanding == 1 ==> Aside(held0))
      modifies this, bc
      ensures outstanding == old(outstanding) - 1
      ensures |old(lh)| + readers < NBUF ==> ok
      ensures !ok ==> Traced(used, |old(lh)|, |raw|, ok, readers) && Full(held, used[|raw|], PinnedAt(|old(lh)|, |raw|))
      ensures old(outstanding) > 1 ==> ok && Valid() && lh == old(lh) && Sees() == old(Sees())
      ensures old(outstanding) > 1 ==> bc.disk == old(bc.disk)
      ensures old(outstanding) == 1 ==>
                && Wrote(bc.issued, bc.disk, old(bc.issued), old(bc.disk), raw, |raw|)
                && (old(lh) == [] ==> ok && raw == [])
                && (old(lh) != [] ==>
                      && (ok <==> |raw| == 2 * |old(lh)| + 2) && Traced(used, |old(lh)|, |raw|, ok, readers)
                      && |raw| <= 2 * |old(lh)| + 2
                      && Decoded(raw, g, HeaderList) == CommitWrites(g, old(lh), Gather(old(Sees()), old(lh)))[..|raw|])
      ensures old(outstanding) == 1 && ok ==>
                && Valid() && Aside(held) && lh == [] && !committing
                && SameHome(bc.disk, g, old(Sees())) && Sees() == bc.disk
    {
      hide Coherent, Linked, ByRecency, UniqueIds, Wrote, Decoded, CommitWrites;
      outstanding := outstanding - 1;
      assert !committing;
      ok, raw, used, held := true, [], [], held0;
      if outstanding == 0 {
        committing := true;
        ok, raw, used, held := Commit(held0);
        committing := false;
      }
    }

    /** read_head. */
    method ReadHead()
      requires Agree() && Quiet(bc.bufs) && pin == map[] && Count(bc.disk[g.start]) <= LOGSIZE
      modifies bc, this`lh
      ensures Agree() && Quiet(bc.bufs) && lh == HeaderList(bc.disk[g.start])
      ensures bc.disk == old(bc.disk) && bc.issued == old(bc.issued)
    {
      hide Linked, ByRecency, UniqueIds, Coherent;
      FirstAvailable(bc.bufs, bc.disk, pin, {}, g.start);
      ghost var bufs0 := bc.bufs;
      var ok, b := BRead(g.start);
      TookOne(bufs0, bc.bufs, {}, b, g.start);
      lh := ReadHeader(bc.bufs[b].data);
      BRelse(b);
    }

    /**
     recover_from_log on a freshly booted cache: whatever the crashed disk means is
     installed, the header is emptied, and the writes are the recovery sequence.
     */
    method Recover(ghost home: Disk) returns (ok: bool, ghost raw: seq<DiskWrite<Block>>)
      requires Agree() && Quiet(bc.bufs) && pin == map[] && outstanding == 0 && !committing
      requires Count(bc.disk[g.start]) <= LOGSIZE && MeansHome(Abs(bc.disk, g, HeaderList), g, home)
      modifies bc, this`lh, this`pin
      ensures ok && Valid() && Quiet(bc.bufs) && lh == [] && Sees() == bc.disk && SameHome(bc.disk, g, home)
      ensures Wrote(bc.issued, bc.disk, old(bc.issued), old(bc.disk), raw, |raw|)
      ensures Decoded(raw, g, HeaderList) == RecoveryWrites(Abs(old(bc.disk), g, HeaderList), g)
    {
      hide Coherent, Linked, ByRecency, UniqueIds, RawApply, RawInstalls, Wrote, MeansHome, LogHolds, RecoveryWrites,
           Decoded, PinsRest, HeaderList;
      ghost var i0, d0 := bc.issued, bc.disk;
      ReadHead();
      ghost var lh0 := lh;
      ghost var vals := HeaderRead(home);
      var held;
      ghost var used;
      ok, held, used := InstallTrans(vals, false, {}, []);
      ghost var i1, d1 := bc.issued, bc.disk;
      lh := [];
      ghost var h2;
      ok, h2 := ClearHead();
      raw := RawInstalls(lh0, vals) + [DiskWrite(g.start, h2)];
      WroteOne(i1, d1, DiskWrite(g.start, h2));
      WroteThen(i0, d0, RawInstalls(lh0, vals), i1, d1, [DiskWrite(g.start, h2)], bc.issued, bc.disk);
      RecoveryEffect(i0, d0, bc.issued, bc.disk, g, HeaderList, vals, h2, home);
      NothingPinned();
    }

    /** write_head when nobody else uses the cache. */
    method ClearHead() returns (ok: bool, ghost hb: Block)
      requires Agree() && Aside({}) && pin == map[] && lh == []
      modifies bc
      ensures ok && Agree() && Quiet(bc.bufs) && HeaderList(hb) == []
      ensures bc.disk == old(bc.disk)[g.start := hb] && bc.issued == old(bc.issued) + [DiskWrite(g.start, hb)]
    {
      hide Coherent, Linked, ByRecency, UniqueIds, HeaderList;
      ok, hb := WriteHead({});
    }

    /** After read_head on a fresh cache, install_trans can start. */
    lemma HeaderRead(home: Disk) returns (vals: seq<Block>)
      requires Agree() && Quiet(bc.bufs) && pin == map[] && lh == HeaderList(bc.disk[g.start])
      requires MeansHome(Abs(bc.disk, g, HeaderList), g, home)
      ensures PinsRest(0, false, {}) && |vals| == |lh| && LogHolds(bc.disk, g, vals)
    {
      hide Coherent, Linked, ByRecency, UniqueIds;
      vals := LoggedValues(Abs(bc.disk, g, HeaderList), g);
    }

    lemma NothingPinned()
      requires Agree() && pin == map[]
      ensures Sees() == bc.disk && Lists([], pin, g, |bc.disk|)
    {
    }

    /** Nothing but the listed blocks is pinned. */
    lemma PinnedAreListed()
      requires PinsLog()
      ensures forall h | h in pin :: h in lh
    {
      ListedCount(lh);
      assert Listed(lh) <= pin.Keys && |pin.Keys| == |pin|;
      if h :| h in pin && h !in lh {
        SubsetCard(Listed(lh), pin.Keys - {h});
        assert false;
      }
    }
  }

  lemma TracedNothing(n: nat, readers: nat)
    ensures Traced([], n, 0, true, readers)
  {
  }

  lemma TracedLength(used: seq<nat>, n: nat, done: nat, ok: bool, readers: nat)
    requires Traced(used, n, done, ok, readers)
    ensures |used| == done + (if ok then 0 else 1)
  {
  }

  lemma WholeCommit(g: Geometry, lh: seq<nat>, vals: seq<Block>)
    requires |lh| == |vals|
    ensures var ws := CommitWrites(g, lh, vals); |ws| == 2 * |lh| + 2 && ws[..2 * |lh| + 2] == ws
  {
  }

  /** What a disk that was sent the writes `raw` of a commit means when it stops after k of them. */
  lemma CutMeans(d: Disk, g: Geometry, raw: seq<DiskWrite<Block>>, lh: seq<nat>, vals: seq<Block>, new_: Disk, k: nat)
    requires Loggable(lh, g, |d|) && g.start + g.size <= |d| && HeaderList(d[g.start]) == []
    requires Updated(d, g, lh, vals, new_)
    requires RawOnDisk(raw, |d|) && k <= |raw| && (lh == [] ==> raw == [])
    requires lh != [] ==> |raw| <= 2 * |lh| + 2 && Decoded(raw, g, HeaderList) == CommitWrites(g, lh, vals)[..|raw|]
    ensures var image := RawApply(d, raw[..k]);
            MeansHome(Abs(image, g, HeaderList), g, if k <= |lh| then d else new_) && Count(image[g.start]) <= LOGSIZE
  {
    if lh == [] {
      assert raw[..k] == [];
    } else {
      CrashInCommit(d, g, HeaderList, raw, lh, vals, new_, k);
    }
  }

  /**
   The whole story of a power failure: commit() runs while others come and go, the disk stops
   after k of the block writes it was sent, the machine boots from it with an empty cache and
   recovers. The home blocks are the pending ones of every block that was logged if more than
   the log blocks were written, and those from before the transaction otherwise; `sent` is how
   many writes commit() got through. The log is ready for the next transaction.
   */
  method PowerFailure(log: Log, k: nat, held0: set<nat>) returns (ok: bool, after: Log, sent: nat)
    requires log.Valid() && log.Aside(held0)
    modifies log, log.bc
    ensures old(log.lh) == [] ==> ok && sent == 0
    ensures |old(log.lh)| + log.readers < NBUF ==> ok
    ensures !ok ==> !HasRecyclable(log.bc.bufs)
    ensures old(log.lh) != [] ==> sent <= 2 * |old(log.lh)| + 2 && (ok <==> sent == 2 * |old(log.lh)| + 2)
    ensures fresh(after) && fresh(after.bc) && after.g == log.g && after.readers == log.readers
    ensures after.Valid() && Quiet(after.bc.bufs) && after.lh == [] && after.Sees() == after.bc.disk
    ensures SameHome(after.bc.disk, log.g, if k > |old(log.lh)| && sent > |old(log.lh)| then old(log.Sees())
                     else old(log.bc.disk))
  {
    hide Coherent, Linked, ByRecency, UniqueIds, Meaning, Decoded, CommitWrites, RawApply, MeansHome, HeaderList;
    var g, d0 := log.g, log.bc.disk;
    ghost var lh0, vals, new_ := log.lh, Gather(log.Sees(), log.lh), log.Sees();
    log.SeesUpdated(vals);
    var writes;
    ok, writes := CommitWritten(log, held0);
    sent := |writes|;
    var j := if k < sent then k else sent;
    CutMeans(d0, g, writes, lh0, vals, new_, j);
    after := Restart(RawApply(d0, writes[..j]), g, log.readers, if j <= |lh0| then d0 else new_);
  }

  /** commit(), and what it has sent to the disk. */
  method CommitWritten(log: Log, held0: set<nat>) returns (ok: bool, writes: seq<DiskWrite<Block>>)
    requires log.Valid() && log.Aside(held0)
    modifies log, log.bc
    ensures |old(log.lh)| + log.readers < NBUF ==> ok
    ensures !ok ==> !HasRecyclable(log.bc.bufs)
    ensures RawOnDisk(writes, |old(log.bc.disk)|) && (old(log.lh) == [] ==> ok && writes == [])
    ensures old(log.lh) != [] ==> |writes| <= 2 * |old(log.lh)| + 2 && (ok <==> |writes| == 2 * |old(log.lh)| + 2)
    ensures old(log.lh) != [] ==>
              Decoded(writes, log.g, HeaderList)
              == CommitWrites(log.g, old(log.lh), Gather(old(log.Sees()), old(log.lh)))[..|writes|]
  {
    hide Coherent, Linked, ByRecency, UniqueIds, Decoded, CommitWrites, Traced, Log.Full, Wrote, SameHome, HeaderList;
    var n0 := |log.bc.issued|;
    ghost var raw, used, n, i0, d0 := [], [], |log.lh|, log.bc.issued, log.bc.disk;
    var held;
    ok, raw, used, held := log.Commit(held0);
    if !ok {
      TracedLength(used, n, |raw|, ok, log.readers);
      log.NoBuffer(held, used[|raw|], PinnedAt(n, |raw|));
    }
    WroteSent(log.bc.issued, log.bc.disk, i0, d0, raw);
    writes := log.bc.issued[n0..];
  }

  /** The machine boots from `image`, which means `home`, with an empty cache, and recovers. */
  method Restart(image: Disk, g: Geometry, readers: nat, ghost home: Disk) returns (after: Log)
    requires 1 <= g.size && g.start + g.size <= |image| <= 0x1_0000_0000
    requires Count(image[g.start]) <= LOGSIZE && MeansHome(Abs(image, g, HeaderList), g, home)
    ensures fresh(after) && fresh(after.bc) && after.g == g && after.readers == readers
    ensures after.Valid() && Quiet(after.bc.bufs) && after.lh == [] && after.Sees() == after.bc.disk
    ensures SameHome(after.bc.disk, g, home)
  {
    hide Coherent, Linked, ByRecency, UniqueIds, Meaning, MeansHome, HeaderList;
    after := new Log.Boot(image, g, readers);
    var ok;
    ghost var raw;
    ok, raw := after.Recover(home);
  }

  /** Listing a block once keeps the list loggable and as long as the set of pinned blocks. */
  lemma ListOne(lh: seq<nat>, pin: map<nat, nat>, g: Geometry, size: nat, bn: nat, b: nat)
    requires Lists(lh, pin, g, size) && Outside(pin, g, size) && |lh| < LOGSIZE && |lh| < g.size - 1 && bn < size
    requires !g.InLog(bn)
    requires forall h | h in pin :: h in lh
    ensures Lists(if bn in lh then lh else lh + [bn], pin[bn := b], g, size) && Outside(pin[bn := b], g, size)
  {
    ListedOnce(lh, g, size, bn);
    hide Loggable;
    assert pin[bn := b].Keys == pin.Keys + {bn};
  }

  lemma ListedOnce(lh: seq<nat>, g: Geometry, size: nat, bn: nat)
    requires Loggable(lh, g, size) && |lh| < LOGSIZE && |lh| < g.size - 1 && bn < size && !g.InLog(bn)
    ensures Loggable(if bn in lh then lh else lh + [bn], g, size)
  {
  }

  function Listed(lh: seq<nat>): set<nat> {
    set h | h in lh
  }

  lemma {:induction false} ListedCount(lh: seq<nat>)
    requires Distinct(lh)
    ensures |Listed(lh)| == |lh|
  {
    if lh != [] {
      var n := |lh| - 1;
      ListedCount(lh[..n]);
      assert Listed(lh) == Listed(lh[..n]) + {lh[n]};
    }
  }
}
