/**
 How the buffer cache, the set of pinned blocks and the disk agree.

 `pin` maps each logged block to the buffer that B_DIRTY pins for it. The view is what
 bread returns: the pinned buffer for a logged block, the disk for any other block.
 */
module Coherence {
  import opened Bio
  import opened Collections

  predicate Settled<B>(b: Buf<B>) {
    b.dev == ROOTDEV && b.valid && !b.dirty && !b.locked
  }

  ghost predicate Coherent<B>(bufs: seq<Buf<B>>, disk: seq<B>, pin: map<nat, nat>) {
    && |bufs| == NBUF
    && (forall b | 0 <= b < NBUF :: bufs[b].dev == ROOTDEV ==> bufs[b].blockno < |disk|)
    && (forall b | 0 <= b < NBUF && bufs[b].dirty ::
          bufs[b].dev == ROOTDEV && bufs[b].valid && bufs[b].blockno in pin && pin[bufs[b].blockno] == b)
    && (forall h | h in pin :: pin[h] < NBUF && Is(bufs[pin[h]], ROOTDEV, h) && bufs[pin[h]].dirty)
    && (forall b | 0 <= b < NBUF && Settled(bufs[b]) :: bufs[b].data == disk[bufs[b].blockno])
  }

  ghost function ViewAt<B>(bufs: seq<Buf<B>>, disk: seq<B>, pin: map<nat, nat>, h: nat): B
    requires Coherent(bufs, disk, pin) && h < |disk|
  {
    if h in pin then bufs[pin[h]].data else disk[h]
  }

  ghost function View<B>(bufs: seq<Buf<B>>, disk: seq<B>, pin: map<nat, nat>): (v: seq<B>)
    requires Coherent(bufs, disk, pin)
    ensures |v| == |disk| && forall h | 0 <= h < |disk| :: v[h] == ViewAt(bufs, disk, pin, h)
  {
    seq(|disk|, h requires 0 <= h < |disk| => ViewAt(bufs, disk, pin, h))
  }

  ghost predicate Quiet<B>(bufs: seq<Buf<B>>) {
    Busy(bufs, {})
  }

  /** Exactly the buffers `held` are in use. */
  ghost predicate Busy<B>(bufs: seq<Buf<B>>, held: set<nat>) {
    && (forall b | b in held :: b < |bufs| && bufs[b].refcnt >= 1)
    && forall b: nat | b < |bufs| && b !in held :: bufs[b].refcnt == 0 && !bufs[b].locked
  }

  /** None of the buffers `held` is for block h. */
  ghost predicate Avoids<B>(bufs: seq<Buf<B>>, held: set<nat>, h: nat) {
    forall b | b in held :: b < |bufs| && bufs[b].blockno != h
  }

  /** Those of the buffers `held` that are not pinned as well. */
  ghost function Unpinned<B>(bufs: seq<Buf<B>>, held: set<nat>): set<nat> {
    set b | b in held && b < |bufs| && !bufs[b].dirty
  }

  ghost predicate KeptHeld<B>(bufs: seq<Buf<B>>, bufs2: seq<Buf<B>>, held: set<nat>) {
    |bufs| == |bufs2| && forall b | b in held :: b < |bufs| && bufs2[b] == bufs[b]
  }

  /** An injective image is as large as its source. */
  lemma {:induction false} ImageSize<B>(bufs: seq<Buf<B>>, s: set<nat>, t: set<nat>)
    requires forall b | b in s :: b < |bufs| && bufs[b].blockno in t
    requires forall b, c | b in s && c in s && b != c :: bufs[b].blockno != bufs[c].blockno
    ensures |s| <= |t|
    decreases |s|
  {
    if b :| b in s {
      ImageSize(bufs, s - {b}, t - {bufs[b].blockno});
    }
  }

  /** The slot numbers below n. */
  function Slots(n: nat): (s: set<nat>)
    ensures |s| == n && forall b: nat :: b in s <==> b < n
  {
    if n == 0 then {} else Slots(n - 1) + {n - 1}
  }

  /** Two sets that are together smaller than n leave out a number below n. */
  lemma Leftover(n: nat, s: set<nat>, t: set<nat>) returns (b: nat)
    requires |s| + |t| < n
    ensures b < n && b !in s && b !in t
  {
    if Slots(n) <= s + t {
      SubsetCard(Slots(n), s + t);
      assert false;
    }
    b :| b in Slots(n) && b !in s + t;
  }

  /** Two disjoint sets of numbers below n that have n elements between them leave out none. */
  lemma Covered(n: nat, s: set<nat>, t: set<nat>, b: nat)
    requires s <= Slots(n) && t <= Slots(n) && s !! t && |s| + |t| >= n && b < n
    ensures b in s || b in t
  {
    if b !in s + t {
      SubsetCard(s + t, Slots(n) - {b});
      assert false;
    }
  }

  ghost function DirtySlots<B>(bufs: seq<Buf<B>>): set<nat> {
    set b: nat | b < |bufs| && bufs[b].dirty
  }

  lemma DirtyCount<B>(bufs: seq<Buf<B>>, disk: seq<B>, pin: map<nat, nat>)
    requires Coherent(bufs, disk, pin)
    ensures |DirtySlots(bufs)| == |pin|
  {
    ImageSize(bufs, DirtySlots(bufs), pin.Keys);
    PreimageSize(pin, DirtySlots(bufs), pin.Keys);
    assert |pin.Keys| == |pin|;
  }

  /** With room left by the pinned and the held buffers, some other buffer is neither. */
  lemma CleanBufferExists<B>(bufs: seq<Buf<B>>, disk: seq<B>, pin: map<nat, nat>, held: set<nat>)
    requires Coherent(bufs, disk, pin) && |pin| + |Unpinned(bufs, held)| < NBUF
    ensures exists b :: 0 <= b < NBUF && b !in held && !bufs[b].dirty
  {
    DirtyCount(bufs, disk, pin);
    var b := Leftover(NBUF, DirtySlots(bufs), Unpinned(bufs, held));
  }

  /** Without, every buffer is pinned or held. */
  lemma AllTaken<B>(bufs: seq<Buf<B>>, disk: seq<B>, pin: map<nat, nat>, held: set<nat>, b: nat)
    requires Coherent(bufs, disk, pin) && |pin| + |Unpinned(bufs, held)| >= NBUF && b < NBUF
    ensures bufs[b].dirty || b in held
  {
    DirtyCount(bufs, disk, pin);
    Covered(NBUF, DirtySlots(bufs), Unpinned(bufs, held), b);
  }

  lemma KeptUnpinned<B>(bufs: seq<Buf<B>>, bufs2: seq<Buf<B>>, held: set<nat>)
    requires KeptHeld(bufs, bufs2, held)
    ensures Unpinned(bufs2, held) == Unpinned(bufs, held)
  {
  }

  lemma OneMoreHeld<B>(bufs: seq<Buf<B>>, held: set<nat>, b: nat)
    ensures |Unpinned(bufs, held + {b})| <= |Unpinned(bufs, held)| + 1
  {
    SubsetCard(Unpinned(bufs, held + {b}), Unpinned(bufs, held) + {b});
  }

  lemma {:induction false} PreimageSize(pin: map<nat, nat>, dirty: set<nat>, keys: set<nat>)
    requires forall h | h in keys :: h in pin && pin[h] in dirty
    requires forall h, i | h in keys && i in keys && h != i :: pin[h] != pin[i]
    ensures |keys| <= |dirty|
    decreases |keys|
  {
    if h :| h in keys {
      PreimageSize(pin, dirty - {pin[h]}, keys - {h});
    }
  }
}

module CacheSteps {
  import opened Bio
  import opened Coherence

  /** bufs after a copy from held buffer s to held buffer d, a write of d, and the release of both. */
  function Copied<B>(bufs: seq<Buf<B>>, s: nat, d: nat): (r: seq<Buf<B>>)
    requires s < |bufs| && d < |bufs|
  {
    bufs[s := bufs[s].(locked := false, refcnt := 0)]
        [d := bufs[d].(data := bufs[s].data, dirty := false, valid := true, locked := false, refcnt := 0)]
  }

  /** The buffers b and c are held, beside the ones in `held`. */
  ghost predicate HeldTwo<B>(bufs: seq<Buf<B>>, held: set<nat>, b: nat, c: nat) {
    && b < |bufs| && c < |bufs| && b != c && b !in held && c !in held
    && bufs[b].locked && bufs[c].locked && bufs[b].valid && bufs[c].valid
    && bufs[b].dev == bufs[c].dev == ROOTDEV
    && bufs[b].refcnt == bufs[c].refcnt == 1
    && Busy(bufs, held + {b, c})
  }

  lemma AfterCopy<B>(bufs: seq<Buf<B>>, disk: seq<B>, pin: map<nat, nat>, held: set<nat>, s: nat, d: nat)
    requires Coherent(bufs, disk, pin) && UniqueIds(bufs) && HeldTwo(bufs, held, s, d)
    requires bufs[s].data == ViewAt(bufs, disk, pin, bufs[s].blockno)
    ensures var dst := bufs[d].blockno;
            && Coherent(Copied(bufs, s, d), disk[dst := bufs[s].data], pin - {dst})
            && Busy(Copied(bufs, s, d), held) && KeptHeld(bufs, Copied(bufs, s, d), held)
  {
    var dst := bufs[d].blockno;
    var bufs2 := Copied(bufs, s, d);
    var pin2 := pin - {dst};
    forall h | h in pin2 ensures pin2[h] < NBUF && Is(bufs2[pin2[h]], ROOTDEV, h) && bufs2[pin2[h]].dirty {
      assert pin[h] != d;
    }
    forall b | 0 <= b < NBUF && bufs2[b].dirty ensures bufs2[b].blockno in pin2 {
      assert b != d;
    }
  }

  lemma ViewAfterCopy<B>(bufs: seq<Buf<B>>, disk: seq<B>, pin: map<nat, nat>, held: set<nat>, s: nat, d: nat)
    requires Coherent(bufs, disk, pin) && UniqueIds(bufs) && HeldTwo(bufs, held, s, d)
    requires bufs[s].data == ViewAt(bufs, disk, pin, bufs[s].blockno)
    ensures var dst := bufs[d].blockno;
            && Coherent(Copied(bufs, s, d), disk[dst := bufs[s].data], pin - {dst})
            && View(Copied(bufs, s, d), disk[dst := bufs[s].data], pin - {dst})
                 == View(bufs, disk, pin)[dst := bufs[s].data]
  {
    AfterCopy(bufs, disk, pin, held, s, d);
  }

  /** What bread may do to the buffers: take b for block h, leave every other buffer alone. */
  ghost predicate Took<B>(bufs: seq<Buf<B>>, bufs2: seq<Buf<B>>, b: nat, h: nat) {
    && |bufs| == |bufs2| && b < |bufs|
    && (Is(bufs[b], ROOTDEV, h) || Recyclable(bufs[b]))
    && Is(bufs2[b], ROOTDEV, h) && bufs2[b].locked && bufs2[b].valid && bufs2[b].refcnt == bufs[b].refcnt + 1
    && forall c | 0 <= c < |bufs| && c != b :: bufs2[c] == bufs[c]
  }

  /** The buffer that bread returns: a cached one as it is, a recycled one read from the disk. */
  function Taken<B>(buf: Buf<B>, disk: seq<B>, h: nat): Buf<B>
    requires h < |disk|
  {
    if Is(buf, ROOTDEV, h) then
      buf.(refcnt := buf.refcnt + 1, locked := true, valid := true, data := if buf.valid then buf.data else disk[h])
    else Buf(true, false, ROOTDEV, h, true, 1, disk[h])
  }

  lemma AfterTaking<B>(bufs: seq<Buf<B>>, disk: seq<B>, pin: map<nat, nat>, b: nat, h: nat)
    requires Coherent(bufs, disk, pin) && UniqueIds(bufs) && b < NBUF && h < |disk|
    requires Is(bufs[b], ROOTDEV, h) || (Recyclable(bufs[b]) && !IsCached(bufs, ROOTDEV, h))
    requires !bufs[b].locked
    ensures var bufs2 := bufs[b := Taken(bufs[b], disk, h)];
            && Coherent(bufs2, disk, pin) && Took(bufs, bufs2, b, h)
            && View(bufs2, disk, pin) == View(bufs, disk, pin)
            && bufs2[b].data == ViewAt(bufs, disk, pin, h) && (bufs2[b].dirty <==> h in pin)
  {
    var bufs2 := bufs[b := Taken(bufs[b], disk, h)];
    if h in pin {
      assert Is(bufs[pin[h]], ROOTDEV, h);
      assert pin[h] == b;
    }
    forall i | i in pin
      ensures bufs2[pin[i]].data == bufs[pin[i]].data && Is(bufs2[pin[i]], ROOTDEV, i) && bufs2[pin[i]].dirty
    {
      assert i != h ==> pin[i] != b;
    }
  }

  /** bufs after the only held buffer b was given new data, written and released. */
  function WrittenBack<B>(bufs: seq<Buf<B>>, b: nat, data: B): (r: seq<Buf<B>>)
    requires b < |bufs|
  {
    bufs[b := bufs[b].(data := data, dirty := false, valid := true, locked := false, refcnt := 0)]
  }

  lemma AfterWriteBack<B>(bufs: seq<Buf<B>>, disk: seq<B>, pin: map<nat, nat>, held: set<nat>, b: nat, data: B)
    requires Coherent(bufs, disk, pin) && UniqueIds(bufs)
    requires b < NBUF && bufs[b].dev == ROOTDEV && bufs[b].blockno !in pin
    requires b !in held && Busy(bufs, held + {b})
    ensures var h := bufs[b].blockno;
            && Coherent(WrittenBack(bufs, b, data), disk[h := data], pin)
            && Busy(WrittenBack(bufs, b, data), held) && KeptHeld(bufs, WrittenBack(bufs, b, data), held)
            && View(WrittenBack(bufs, b, data), disk[h := data], pin) == View(bufs, disk, pin)[h := data]
  {
    var bufs2 := WrittenBack(bufs, b, data);
    forall h | h in pin ensures bufs2[pin[h]] == bufs[pin[h]] {
      assert pin[h] != b;
    }
  }

  /** Releasing a buffer that is pinned or still equal to the disk. */
  lemma AfterRelease<B>(bufs: seq<Buf<B>>, disk: seq<B>, pin: map<nat, nat>, b: nat)
    requires Coherent(bufs, disk, pin) && b < NBUF && bufs[b].refcnt >= 1 && bufs[b].dev == ROOTDEV
    requires bufs[b].dirty || bufs[b].data == disk[bufs[b].blockno]
    ensures var bufs2 := bufs[b := bufs[b].(locked := false, refcnt := bufs[b].refcnt - 1)];
            Coherent(bufs2, disk, pin) && View(bufs2, disk, pin) == View(bufs, disk, pin)
  {
  }

  /** New data in a held buffer shows in the view at once if the block is pinned, and not before otherwise. */
  lemma AfterModify<B>(bufs: seq<Buf<B>>, disk: seq<B>, pin: map<nat, nat>, b: nat, data: B)
    requires Coherent(bufs, disk, pin) && UniqueIds(bufs) && b < NBUF && bufs[b].locked && bufs[b].dev == ROOTDEV
    ensures var bufs2 := bufs[b := bufs[b].(data := data)];
            && Coherent(bufs2, disk, pin)
            && View(bufs2, disk, pin) ==
               if bufs[b].dirty then View(bufs, disk, pin)[bufs[b].blockno := data] else View(bufs, disk, pin)
  {
    var bufs2 := bufs[b := bufs[b].(data := data)];
    forall h | h in pin ensures bufs2[pin[h]].data == if pin[h] == b then data else bufs[pin[h]].data {
    }
  }

  /** Pinning a held, valid buffer makes its data the block's pending value. */
  lemma AfterPin<B>(bufs: seq<Buf<B>>, disk: seq<B>, pin: map<nat, nat>, b: nat)
    requires Coherent(bufs, disk, pin) && UniqueIds(bufs) && b < NBUF && bufs[b].locked && bufs[b].valid
    requires bufs[b].dev == ROOTDEV
    ensures var h := bufs[b].blockno;
            var bufs2 := bufs[b := bufs[b].(dirty := true)];
            && (h in pin ==> pin[h] == b)
            && Coherent(bufs2, disk, pin[h := b])
            && View(bufs2, disk, pin[h := b]) == View(bufs, disk, pin)[h := bufs[b].data]
  {
    var h := bufs[b].blockno;
    if h in pin {
      assert Is(bufs[pin[h]], ROOTDEV, h);
    }
  }

  /** A buffer taken for a block that no held buffer is for. */
  lemma TookOne<B>(bufs: seq<Buf<B>>, bufs1: seq<Buf<B>>, held: set<nat>, b: nat, h: nat)
    requires Busy(bufs, held) && Avoids(bufs, held, h) && Took(bufs, bufs1, b, h)
    ensures b !in held && Busy(bufs1, held + {b}) && bufs1[b].refcnt == 1 && KeptHeld(bufs, bufs1, held)
  {
  }

  lemma TookTwo<B>(bufs: seq<Buf<B>>, bufs1: seq<Buf<B>>, bufs2: seq<Buf<B>>, held: set<nat>, b: nat, c: nat,
                   first: nat, second: nat)
    requires Busy(bufs, held) && Avoids(bufs, held, first) && Avoids(bufs, held, second) && first != second
    requires Took(bufs, bufs1, b, first) && Took(bufs1, bufs2, c, second)
    ensures HeldTwo(bufs2, held, b, c) && bufs2[b] == bufs1[b] && KeptHeld(bufs, bufs2, held)
  {
    TookOne(bufs, bufs1, held, b, first);
  }

  /** When a second block can be read while b is held for the first. */
  lemma SecondAvailable<B>(bufs: seq<Buf<B>>, bufs1: seq<Buf<B>>, disk: seq<B>, pin: map<nat, nat>, held: set<nat>,
                           b: nat, first: nat, second: nat)
    requires Busy(bufs, held) && Avoids(bufs, held, first) && Took(bufs, bufs1, b, first)
    requires Coherent(bufs, disk, pin) && Coherent(bufs1, disk, pin) && UniqueIds(bufs1)
    requires var n := |pin| + |Unpinned(bufs, held)|; (n < NBUF && (first in pin || second in pin)) || n + 2 <= NBUF
    ensures IsCached(bufs1, ROOTDEV, second) || HasRecyclable(bufs1)
  {
    TookOne(bufs, bufs1, held, b, first);
    if second in pin {
      assert Is(bufs1[pin[second]], ROOTDEV, second);
    } else {
      KeptUnpinned(bufs, bufs1, held);
      OneMoreHeld(bufs1, held, b);
      var held1 := if first in pin then held else held + {b};
      CleanBufferExists(bufs1, disk, pin, held1);
      var c :| 0 <= c < NBUF && c !in held1 && !bufs1[c].dirty;
      if first in pin {
        assert pin[first] == b;
      }
      assert Recyclable(bufs1[c]);
    }
  }

  /**
   Beside the buffers in use, a further block can be read exactly when they and the pinned
   ones do not fill the cache; then it is not even cached.
   */
  lemma FirstAvailable<B>(bufs: seq<Buf<B>>, disk: seq<B>, pin: map<nat, nat>, held: set<nat>, h: nat)
    requires Busy(bufs, held) && Coherent(bufs, disk, pin)
    ensures |pin| + |Unpinned(bufs, held)| < NBUF ==> HasRecyclable(bufs)
    ensures |pin| + |Unpinned(bufs, held)| >= NBUF && h !in pin && Avoids(bufs, held, h) ==>
              !IsCached(bufs, ROOTDEV, h) && !HasRecyclable(bufs)
  {
    if |pin| + |Unpinned(bufs, held)| < NBUF {
      CleanBufferExists(bufs, disk, pin, held);
      var c :| 0 <= c < NBUF && c !in held && !bufs[c].dirty;
      assert Recyclable(bufs[c]);
    } else if h !in pin && Avoids(bufs, held, h) {
      forall b: nat | b < NBUF ensures !Is(bufs[b], ROOTDEV, h) && !Recyclable(bufs[b]) {
        AllTaken(bufs, disk, pin, held, b);
      }
    }
  }

  /** bget of block h panics, although h is neither pinned nor held. */
  ghost predicate Stuck<B>(bufs: seq<Buf<B>>, pin: map<nat, nat>, held: set<nat>, h: nat) {
    h !in pin && Avoids(bufs, held, h) && !IsCached(bufs, ROOTDEV, h) && !HasRecyclable(bufs)
  }

  /**
   A cache with one block less than NBUF pinned and a reader of one more: no other block
   can be read, although the pinned blocks alone would have left a buffer.
   */
  lemma OneReaderIsEnough<B>(x: B) returns (bufs: seq<Buf<B>>, disk: seq<B>, pin: map<nat, nat>, held: set<nat>)
    ensures Coherent(bufs, disk, pin) && UniqueIds(bufs) && Busy(bufs, held) && |pin| == NBUF - 1 && |held| == 1
    ensures forall h: nat | h < 100 :: Stuck(bufs, pin, held, h)
  {
    hide Stuck, Coherent, UniqueIds, Busy;
    bufs := OneReader(x);
    disk, held := seq(300, _ => x), {NBUF - 1};
    pin := PinFrom(100, NBUF - 1);
    OneReaderOk(x, disk);
    assert Unpinned(bufs, held) == held;
    forall h: nat | h < 100 ensures Stuck(bufs, pin, held, h) {
      StuckWhenFull(bufs, disk, pin, held, h);
    }
  }

  lemma OneReaderOk<B>(x: B, disk: seq<B>)
    requires |disk| == 300 && forall h | 0 <= h < 300 :: disk[h] == x
    ensures Coherent(OneReader(x), disk, PinFrom(100, NBUF - 1)) && UniqueIds(OneReader(x))
    ensures Busy(OneReader(x), {NBUF - 1})
  {
  }

  lemma StuckWhenFull<B>(bufs: seq<Buf<B>>, disk: seq<B>, pin: map<nat, nat>, held: set<nat>, h: nat)
    requires Busy(bufs, held) && Coherent(bufs, disk, pin) && h !in pin && Avoids(bufs, held, h)
    requires |pin| + |Unpinned(bufs, held)| >= NBUF
    ensures Stuck(bufs, pin, held, h)
  {
    FirstAvailable(bufs, disk, pin, held, h);
  }

  /** Blocks 100, 101, ... pinned in all buffers but the last, and a reader of block 200 in that one. */
  function OneReader<B>(x: B): (bufs: seq<Buf<B>>)
    ensures |bufs| == NBUF && bufs[NBUF - 1] == Buf(true, false, ROOTDEV, 200, true, 1, x)
    ensures forall i | 0 <= i < NBUF - 1 :: bufs[i] == Buf(true, true, ROOTDEV, 100 + i, false, 0, x)
  {
    seq(NBUF - 1, (i: nat) => Buf(true, true, ROOTDEV, 100 + i, false, 0, x))
    + [Buf(true, false, ROOTDEV, 200, true, 1, x)]
  }

  /** Block a + i pinned in buffer i, for the first n buffers. */
  function PinFrom(a: nat, n: nat): (pin: map<nat, nat>)
    ensures |pin| == n && forall h: nat :: (h in pin <==> a <= h < a + n) && (h in pin ==> pin[h] == h - a)
  {
    if n == 0 then map[] else PinFrom(a, n - 1)[a + n - 1 := n - 1]
  }
}
