/**
 The buffer cache of bio.c.

 `struct buf buf[NBUF]` and the list head are slots 0..NBUF of the sequences below, so a
 `struct buf *` is a slot number and HEAD stands for &bcache.head. The disk driver is its
 documented contract (ide.c:134-136): a dirty buffer is written, an invalid one is read.
 The type parameter B is the contents of a block.
 */
module Bio {

  const NBUF: nat := 30
  const HEAD: nat := NBUF
  const ROOTDEV: nat := 1

  datatype Buf<B> = Buf(valid: bool, dirty: bool, dev: nat, blockno: nat, locked: bool, refcnt: nat, data: B)

  /** One whole-block write, as the disk sees it. */
  datatype DiskWrite<B> = DiskWrite(bn: nat, data: B)

  predicate Is<B>(b: Buf<B>, dev: nat, blockno: nat) {
    b.dev == dev && b.blockno == blockno
  }

  predicate Recyclable<B>(b: Buf<B>) {
    b.refcnt == 0 && !b.dirty
  }

  ghost predicate IsCached<B>(bufs: seq<Buf<B>>, dev: nat, blockno: nat) {
    exists b :: 0 <= b < |bufs| && Is(bufs[b], dev, blockno)
  }

  ghost predicate HasRecyclable<B>(bufs: seq<Buf<B>>) {
    exists b :: 0 <= b < |bufs| && Recyclable(bufs[b])
  }

  // ---- The doubly linked list ----

  /** The i-th element of the circle through HEAD; positions -1 and |order| are HEAD itself. */
  function At(order: seq<nat>, i: int): nat {
    if 0 <= i < |order| then order[i] else HEAD
  }

  /** next and prev describe the circle HEAD, order[0], order[1], ..., HEAD, in both directions. */
  ghost predicate Linked(next: seq<nat>, prev: seq<nat>, order: seq<nat>) {
    && |next| == |prev| == NBUF + 1
    && (forall i | 0 <= i < |order| :: order[i] < NBUF)
    && (forall i, j | 0 <= i < j < |order| :: order[i] != order[j])
    && forall i, j {:trigger At(order, i), At(order, j)} | -1 <= i < |order| && j == i + 1 ::
         next[At(order, i)] == At(order, j) && prev[At(order, j)] == At(order, i)
  }

  /** The four pointer writes that put b behind the head. */
  lemma PushFront(next: seq<nat>, prev: seq<nat>, order: seq<nat>, b: nat)
    requires Linked(next, prev, order) && b < NBUF && b !in order
    ensures next[HEAD] <= NBUF
    ensures var n1 := next[b := next[HEAD]];
            var p1 := prev[b := HEAD];
            n1[HEAD] <= NBUF && Linked(n1[HEAD := b], p1[n1[HEAD] := b], [b] + order)
  {
    assert At(order, -1) == HEAD && next[HEAD] == At(order, 0);
    var n2 := next[b := next[HEAD]][HEAD := b];
    var p2 := prev[b := HEAD][next[HEAD] := b];
    var o2 := [b] + order;
    forall i, j {:trigger At(o2, i), At(o2, j)} | -1 <= i < |o2| && j == i + 1
      ensures n2[At(o2, i)] == At(o2, j) && p2[At(o2, j)] == At(o2, i)
    {
      if i >= 1 {
        assert At(o2, i) == At(order, i - 1) && At(o2, j) == At(order, i);
      }
    }
  }

  /** The two pointer writes that take order[k] out of the list. */
  lemma Unlink(next: seq<nat>, prev: seq<nat>, order: seq<nat>, k: nat)
    requires Linked(next, prev, order) && k < |order|
    ensures var b := order[k];
            next[b] <= NBUF && prev[b] <= NBUF &&
            var p1 := prev[next[b] := prev[b]];
            p1[b] <= NBUF && Linked(next[p1[b] := next[b]], p1, order[..k] + order[k + 1..])
  {
    var b := order[k];
    assert At(order, k) == b;
    assert next[b] == At(order, k + 1) && prev[b] == At(order, k - 1);
    var p1 := prev[next[b] := prev[b]];
    var n1 := next[prev[b] := next[b]];
    var o1 := order[..k] + order[k + 1..];
    assert forall i {:trigger At(o1, i)} :: At(o1, i) <= NBUF;
    forall i, j {:trigger At(o1, i), At(o1, j)} | -1 <= i < |o1| && j == i + 1
      ensures n1[At(o1, i)] == At(o1, j) && p1[At(o1, j)] == At(o1, i)
    {
      UnlinkStep(next, prev, order, k, i);
    }
  }

  lemma UnlinkStep(next: seq<nat>, prev: seq<nat>, order: seq<nat>, k: nat, i: int)
    requires Linked(next, prev, order) && k < |order| && -1 <= i < |order| - 1
    ensures var o1 := order[..k] + order[k + 1..];
            && next[At(order, k - 1) := At(order, k + 1)][At(o1, i)] == At(o1, i + 1)
            && prev[At(order, k + 1) := At(order, k - 1)][At(o1, i + 1)] == At(o1, i)
  {
    var o1 := order[..k] + order[k + 1..];
    if i + 1 < k {
      assert At(o1, i) == At(order, i) && At(o1, i + 1) == At(order, i + 1);
    } else if i + 1 == k {
      assert At(o1, i) == At(order, k - 1) && At(o1, i + 1) == At(order, k + 1);
    } else {
      assert At(o1, i) == At(order, i + 1) && At(o1, i + 1) == At(order, i + 2);
    }
  }

  /** A list of all buffers is one cycle in which prev and next are inverse to each other. */
  lemma CycleIsInverse(next: seq<nat>, prev: seq<nat>, order: seq<nat>, x: nat)
    requires Linked(next, prev, order) && (forall b | 0 <= b < NBUF :: b in order)
    requires x <= NBUF
    ensures next[x] <= NBUF && prev[x] <= NBUF && prev[next[x]] == x && next[prev[x]] == x
  {
    var i :| -1 <= i < |order| && At(order, i) == x by {
      if x == HEAD {
        assert At(order, -1) == HEAD;
      } else {
        assert x in order;
        var j :| 0 <= j < |order| && order[j] == x;
        assert At(order, j) == x;
      }
    }
    assert At(order, i + 1) <= NBUF;
    if i == -1 {
      assert At(order, |order|) == HEAD && At(order, |order| - 1) <= NBUF;
    } else {
      assert At(order, i - 1) <= NBUF;
    }
  }

  ghost predicate UniqueIds<B>(bufs: seq<Buf<B>>) {
    forall b, c | 0 <= b < c < |bufs| && Is(bufs[c], bufs[b].dev, bufs[b].blockno) :: Is(bufs[b], 0, 0)
  }

  /** stamp[b] is the time at which b was last released; the list is sorted by it, latest first. */
  ghost predicate ByRecency(order: seq<nat>, stamp: seq<nat>, clock: nat) {
    && |stamp| == NBUF
    && (forall i | 0 <= i < |order| :: order[i] < NBUF && stamp[order[i]] < clock)
    && forall i, j | 0 <= i < j < |order| :: stamp[order[j]] < stamp[order[i]]
  }

  lemma MovedToFront(order: seq<nat>, stamp: seq<nat>, clock: nat, k: nat)
    requires k < |order| && ByRecency(order, stamp, clock)
    requires forall i, j | 0 <= i < j < |order| :: order[i] != order[j]
    requires forall c | 0 <= c < NBUF :: c in order
    ensures var b := order[k];
            var rest := order[..k] + order[k + 1..];
            && b !in rest
            && (forall c | 0 <= c < NBUF :: c in [b] + rest)
            && ByRecency([b] + rest, stamp[b := clock], clock + 1)
  {
    var b := order[k];
    var rest := order[..k] + order[k + 1..];
    forall c | 0 <= c < NBUF && c != b ensures c in rest {
      assert c in order;
      var i :| 0 <= i < |order| && order[i] == c;
      assert rest[if i < k then i else i - 1] == c;
    }
  }

  class BCache<B> {
    var bufs: seq<Buf<B>>
    var next: seq<nat>
    var prev: seq<nat>
    /** The blocks of device ROOTDEV. */
    var disk: seq<B>
    /** The list as a sequence, most recently released first. */
    ghost var order: seq<nat>
    ghost var stamp: seq<nat>
    ghost var clock: nat
    /** Every block write since boot, in the order in which the disk carries them out. */
    var issued: seq<DiskWrite<B>>

    ghost predicate Valid()
      reads this
    {
      && |bufs| == |order| == NBUF
      && Linked(next, prev, order)
      && (forall b | 0 <= b < NBUF :: b in order)
      && ByRecency(order, stamp, clock)
      && UniqueIds(bufs)
      && (forall b | 0 <= b < NBUF :: bufs[b].locked ==> bufs[b].refcnt >= 1)
    }

    /** binit, on buffers that the loader zeroed. */
    constructor (zero: B, image: seq<B>)
      ensures Valid() && disk == image && issued == []
      ensures forall b | 0 <= b < NBUF :: bufs[b] == Buf(false, false, 0, 0, false, 0, zero)
    {
      bufs := seq(NBUF, _ => Buf(false, false, 0, 0, false, 0, zero));
      next := seq(NBUF + 1, _ => HEAD);
      prev := seq(NBUF + 1, _ => HEAD);
      order, stamp, clock, issued := [], seq(NBUF, i => i), NBUF, [];
      disk := image;
      new;
      var b := 0;
      while b < NBUF
        invariant 0 <= b <= NBUF == |bufs| && |order| == b
        invariant Linked(next, prev, order)
        invariant forall c | 0 <= c < b :: order[c] == b - 1 - c
        invariant stamp == seq(NBUF, i => i) && clock == NBUF && issued == [] && disk == image
        invariant forall c | 0 <= c < NBUF :: bufs[c] == Buf(false, false, 0, 0, false, 0, zero)
      {
        PushFront(next, prev, order, b);
        next := next[b := next[HEAD]];
        prev := prev[b := HEAD];
        prev := prev[next[HEAD] := b];
        next := next[HEAD := b];
        order := [b] + order;
        b := b + 1;
      }
      forall c | 0 <= c < NBUF ensures c in order {
        assert order[NBUF - 1 - c] == c;
      }
    }

    /** The first loop of bget, from the most recently used end. */
    method FindCached(dev: nat, blockno: nat) returns (b: nat)
      requires Valid()
      ensures b == HEAD ==> !IsCached(bufs, dev, blockno)
      ensures b != HEAD ==> b < NBUF && Is(bufs[b], dev, blockno)
    {
      b := next[HEAD];
      ghost var k := 0;
      assert At(order, -1) == HEAD && At(order, 0) == order[0];
      while b != HEAD
        invariant 0 <= k <= NBUF && b == At(order, k)
        invariant forall i | 0 <= i < k :: !Is(bufs[order[i]], dev, blockno)
        decreases NBUF - k
      {
        assert At(order, k) == order[k] && At(order, k + 1) <= NBUF;
        if bufs[b].dev == dev && bufs[b].blockno == blockno {
          return;
        }
        b := next[b];
        k := k + 1;
      }
      forall c | 0 <= c < NBUF ensures !Is(bufs[c], dev, blockno) {
        assert c in order;
      }
    }

    /** The second loop of bget, from the least recently used end. */
    method FindRecyclable() returns (b: nat)
      requires Valid()
      ensures b == HEAD ==> !HasRecyclable(bufs)
      ensures b != HEAD ==> b < NBUF && Recyclable(bufs[b])
      ensures b != HEAD ==> forall c | 0 <= c < NBUF && Recyclable(bufs[c]) :: stamp[b] <= stamp[c]
    {
      b := prev[HEAD];
      ghost var k := NBUF - 1;
      assert At(order, NBUF) == HEAD && At(order, NBUF - 1) == order[NBUF - 1];
      while b != HEAD
        invariant -1 <= k < NBUF && b == At(order, k)
        invariant forall i | k < i < NBUF :: !Recyclable(bufs[order[i]])
        decreases k
      {
        assert At(order, k) == order[k] && At(order, k - 1) <= NBUF;
        if bufs[b].refcnt == 0 && !bufs[b].dirty {
          forall c | 0 <= c < NBUF && Recyclable(bufs[c]) ensures stamp[b] <= stamp[c] {
            assert c in order;
            var i :| 0 <= i < NBUF && order[i] == c;
          }
          return;
        }
        b := prev[b];
        k := k - 1;
      }
      forall c | 0 <= c < NBUF ensures !Recyclable(bufs[c]) {
        assert c in order;
      }
    }

    /**
     bget up to the point where it waits for the buffer's sleep lock. It panics exactly
     when the block is not cached and no buffer can be recycled; otherwise it returns the
     cached buffer, or recycles the least recently released of the recyclable ones.
     */
    method BGet(dev: nat, blockno: nat) returns (ok: bool, b: nat)
      requires Valid()
      modifies this`bufs
      ensures Valid()
      ensures ok <==> old(IsCached(bufs, dev, blockno) || HasRecyclable(bufs))
      ensures !ok ==> bufs == old(bufs)
      ensures ok ==> b < NBUF && Is(bufs[b], dev, blockno)
      ensures ok && old(IsCached(bufs, dev, blockno)) ==>
                && Is(old(bufs)[b], dev, blockno)
                && bufs == old(bufs)[b := old(bufs)[b].(refcnt := old(bufs)[b].refcnt + 1)]
      ensures ok && !old(IsCached(bufs, dev, blockno)) ==>
                && Recyclable(old(bufs)[b])
                && (forall c | 0 <= c < NBUF && Recyclable(old(bufs)[c]) :: stamp[b] <= stamp[c])
                && bufs == old(bufs)[b := Buf(false, false, dev, blockno, false, 1, old(bufs)[b].data)]
    {
      b := FindCached(dev, blockno);
      if b != HEAD {
        bufs := bufs[b := bufs[b].(refcnt := bufs[b].refcnt + 1)];
        return true, b;
      }
      b := FindRecyclable();
      if b != HEAD {
        bufs := bufs[b := Buf(false, false, dev, blockno, bufs[b].locked, 1, bufs[b].data)];
        return true, b;
      }
      return false, 0;
    }

    /** The rest of bread: take the sleep lock, and read the block if the buffer is not valid. */
    method LockAndRead(b: nat)
      requires Valid() && b < NBUF
      requires bufs[b].refcnt >= 1 && !bufs[b].locked && bufs[b].dev == ROOTDEV && bufs[b].blockno < |disk|
      modifies this`bufs
      ensures Valid()
      ensures bufs == old(bufs)[b := old(bufs)[b].(locked := true, valid := true,
                data := if old(bufs)[b].valid then old(bufs)[b].data else disk[old(bufs)[b].blockno])]
    {
      bufs := bufs[b := bufs[b].(locked := true)];
      if !bufs[b].valid {
        bufs := bufs[b := bufs[b].(data := disk[bufs[b].blockno], valid := true)];
      }
    }

    /** The holder of a buffer changes its data. */
    method SetData(b: nat, data: B)
      requires Valid() && b < NBUF && bufs[b].locked
      modifies this`bufs
      ensures Valid() && bufs == old(bufs)[b := old(bufs)[b].(data := data)]
    {
      bufs := bufs[b := bufs[b].(data := data)];
    }

    /** The holder of a buffer pins it: b->flags |= B_DIRTY in log_write. */
    method SetDirty(b: nat)
      requires Valid() && b < NBUF && bufs[b].locked
      modifies this`bufs
      ensures Valid() && bufs == old(bufs)[b := old(bufs)[b].(dirty := true)]
    {
      bufs := bufs[b := bufs[b].(dirty := true)];
    }

    /** bwrite: one whole-block write; the driver then clears B_DIRTY and sets B_VALID. */
    method BWrite(b: nat)
      requires Valid() && b < NBUF && bufs[b].locked && bufs[b].dev == ROOTDEV && bufs[b].blockno < |disk|
      modifies this`bufs, this`disk, this`issued
      ensures Valid()
      ensures bufs == old(bufs)[b := old(bufs)[b].(dirty := false, valid := true)]
      ensures disk == old(disk)[bufs[b].blockno := bufs[b].data]
      ensures issued == old(issued) + [DiskWrite(bufs[b].blockno, bufs[b].data)]
    {
      bufs := bufs[b := bufs[b].(dirty := true)];
      disk := disk[bufs[b].blockno := bufs[b].data];
      issued := issued + [DiskWrite(bufs[b].blockno, bufs[b].data)];
      bufs := bufs[b := bufs[b].(dirty := false, valid := true)];
    }

    /** brelse: unlock, drop the reference, and with the last reference move to the front. */
    method BRelse(b: nat)
      requires Valid() && b < NBUF && bufs[b].locked
      modifies this`bufs, this`next, this`prev, this`order, this`stamp, this`clock
      ensures Valid()
      ensures bufs == old(bufs)[b := old(bufs)[b].(locked := false, refcnt := old(bufs)[b].refcnt - 1)]
      ensures bufs[b].refcnt > 0 ==> order == old(order) && stamp == old(stamp)
      ensures bufs[b].refcnt == 0 ==> order[0] == b && stamp == old(stamp)[b := old(clock)]
      ensures forall c, d | 0 <= c < NBUF && 0 <= d < NBUF && c != b && d != b ::
                (stamp[c] < stamp[d] <==> old(stamp)[c] < old(stamp)[d])
    {
      bufs := bufs[b := bufs[b].(locked := false, refcnt := bufs[b].refcnt - 1)];
      if bufs[b].refcnt == 0 {
        MoveToFront(b);
      }
    }

    method MoveToFront(b: nat)
      requires Valid() && b < NBUF
      modifies this`next, this`prev, this`order, this`stamp, this`clock
      ensures Valid()
      ensures order[0] == b && stamp == old(stamp)[b := old(clock)]
    {
      assert b in order;
      ghost var k :| 0 <= k < NBUF && order[k] == b;
      ghost var rest := order[..k] + order[k + 1..];
      MovedToFront(order, stamp, clock, k);
      Unlink(next, prev, order, k);
      prev := prev[next[b] := prev[b]];
      next := next[prev[b] := next[b]];
      PushFront(next, prev, rest, b);
      next := next[b := next[HEAD]];
      prev := prev[b := HEAD];
      prev := prev[next[HEAD] := b];
      next := next[HEAD := b];
      order, stamp, clock := [b] + rest, stamp[b := clock], clock + 1;
    }
  }
}
