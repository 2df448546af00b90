/**
 writei and filewrite on values: what one block, one write and one chunk after the other
 do to the file, how many blocks they allocate, and which blocks they log.
 */
module WriteSteps {
  import opened Blocks
  import opened Collections
  import opened Inodes
  import opened Contents
  import opened FileMap
  import Recovery

  // ---- What is logged ----

  /** all: the blocks logged, among data: data blocks written, maps: free-map blocks, ind: the indirect block. */
  datatype Cost = Cost(all: set<nat>, data: set<nat>, maps: set<nat>, ind: set<nat>)

  /** What is logged for `span` file blocks that took `used` new blocks; a is the indirect block, 0 if there is none. */
  ghost predicate CostOk(c: Cost, before: set<nat>, logged: set<nat>, a: nat, span: nat, used: nat) {
    && logged == before + c.all && c.all <= c.data + c.maps + c.ind
    && |c.data| <= span && |c.maps| <= used && |c.ind| <= 1 && (forall x | x in c.ind :: x == a && a != 0)
  }

  /** One file block bn with block addr, `more` new blocks and their map blocks bm: the blocks x are logged. */
  ghost predicate BlockCost(a0: nat, a1: nat, l0: set<nat>, l1: set<nat>, bn: nat, more: nat,
                            x: set<nat>, bm: set<nat>, addr: nat)
  {
    && |bm| <= more && l1 == l0 + x && x <= bm + {addr} + (if bn < NDIRECT then {} else {a1})
    && (a0 != 0 || bn < NDIRECT ==> a1 == a0) && (bn >= NDIRECT ==> a1 != 0)
  }

  lemma UnionCard(a: set<nat>, b: set<nat>)
    ensures |a + b| <= |a| + |b|
  {
  }

  lemma CostSets(c: Cost, before: set<nat>, l0: set<nat>, l1: set<nat>, x: set<nat>, bm: set<nat>, addr: nat,
                 ind: set<nat>)
    requires l0 == before + c.all && c.all <= c.data + c.maps + c.ind && c.ind <= ind
    requires l1 == l0 + x && x <= bm + {addr} + ind
    ensures l1 == before + (c.all + x) && c.all + x <= (c.data + {addr}) + (c.maps + bm) + ind
  {
  }

  lemma CostMore(c: Cost, before: set<nat>, l0: set<nat>, l1: set<nat>, a0: nat, a1: nat, span: nat, used: nat,
                 used2: nat, bn: nat, more: nat, x: set<nat>, bm: set<nat>, addr: nat)
    returns (c2: Cost)
    requires CostOk(c, before, l0, a0, span, used) && BlockCost(a0, a1, l0, l1, bn, more, x, bm, addr)
    requires used2 == used + more
    ensures CostOk(c2, before, l1, a1, span + 1, used2) && c2.all == c.all + x
  {
    c2 := Cost(c.all + x, c.data + {addr}, c.maps + bm, if bn < NDIRECT then c.ind else {a1});
    UnionCard(c.data, {addr});
    UnionCard(c.maps, bm);
    CostSets(c, before, l0, l1, x, bm, addr, c2.ind);
  }

  /** Data blocks, a map block for each new block, the indirect block and the inode. */
  function Budget(v: View, off: nat, n: nat): nat
    requires v.Shape() && off + n <= MAXFILE * BSIZE
  {
    if n == 0 then 0 else Span(off, n) + ByteCost(v, off, n) + 2
  }

  /** The blocks a finished write has logged stay within the budget, with the inode's block. */
  lemma CostBudget(c: Cost, before: set<nat>, logged: set<nat>, a: nat, v: View, off: nat, n: nat, ib: nat)
    requires v.Shape() && off + n <= MAXFILE * BSIZE && CostOk(c, before, logged, a, Span(off, n), ByteCost(v, off, n))
    ensures |c.all| <= |c.all + {ib}| && (n > 0 ==> |c.all + {ib}| <= Budget(v, off, n)) && (n == 0 ==> |c.all| <= 1)
  {
    SubsetCard(c.all + {ib}, c.data + c.maps + c.ind + {ib});
    SubsetCard(c.all, c.data + c.maps + c.ind);
    SubsetCard(c.all, c.all + {ib});
  }

  /** filewrite's chunk: inode, indirect block, two blocks of slop, and two blocks for each data block. */
  const CHUNK: nat := (Recovery.MAXOPBLOCKS - 1 - 1 - 2) / 2 * BSIZE

  /**
   A chunk never logs more blocks than begin_op reserves, whatever the spread of the free map,
   unless it starts inside a missing block; then it may log one more. In a file without holes
   it never does.
   */
  lemma ChunkFitsReservation(v: View, off: nat, n: nat)
    requires v.Shape() && off + n <= MAXFILE * BSIZE && n <= CHUNK
    ensures Budget(v, off, n) <= Recovery.MAXOPBLOCKS + 1
    ensures n == 0 || off % BSIZE == 0 || DataBlock(v, off / BSIZE) != 0 ==> Budget(v, off, n) <= Recovery.MAXOPBLOCKS
    ensures Dense(v) && off <= v.ip.size ==> Budget(v, off, n) <= Recovery.MAXOPBLOCKS
  {
    if n > 0 {
      TopWithin(off, n);
      ChunkSpan(off, n);
      if Dense(v) && off <= v.ip.size && off % BSIZE != 0 {
        DenseEnd(v.ip.size, off, n);
        assert FilledAt(v, BlocksFor(v.ip.size), off / BSIZE);
      }
      CostBound(v, off / BSIZE, TopBlock(off, n));
    }
  }

  lemma ChunkSpan(off: nat, n: nat)
    requires 1 <= n <= CHUNK
    ensures 1 <= Span(off, n) <= 4 && (off % BSIZE == 0 ==> Span(off, n) <= 3)
  {
    assert CHUNK == 3 * BSIZE;
  }

  // ---- bmap ----

  /** The pointer in the inode itself through which file block bn is reached. */
  predicate PointerThere(v: View, bn: nat)
    requires v.Shape()
  {
    v.ip.addrs[if bn < NDIRECT then bn else NDIRECT] != 0
  }

  ghost predicate PointersThere(v: View, a: nat, b: nat)
    requires v.Shape()
  {
    forall bn: nat | a <= bn < b :: PointerThere(v, bn)
  }

  /** What bmap leaves for file block bn: its block addr is there, and nobody else notices. */
  ghost predicate BMapped(v: View, own: map<nat, Owner>, w: View, own2: map<nat, Owner>, l0: set<nat>, l1: set<nat>,
                          bn: nat, addr: nat, bm: set<nat>, x: set<nat>)
  {
    && Inv(w, own2) && bn < MAXFILE && addr == DataBlock(w, bn) && addr != 0 && Grew(v, w) && Fills(v, w, bn, bn + 1)
    && |own2| == |own| + RangeCost(v, bn, bn + 1) && OnlyBlocks(v, w, x) && InFs(v.sb, x)
    && BlockCost(v.ip.addrs[NDIRECT], w.ip.addrs[NDIRECT], l0, l1, bn, RangeCost(v, bn, bn + 1), x, bm, addr)
    && (RangeCost(v, bn, bn + 1) == 0 ==> w == v && own2 == own && x == {})
    && (PointerThere(v, bn) ==> w.ip == v.ip)
  }

  lemma OneCost(v: View, bn: nat)
    requires v.Shape() && bn < MAXFILE
    ensures RangeCost(v, bn, bn + 1) ==
            if DataBlock(v, bn) != 0 then 0 else if bn < NDIRECT || v.ip.addrs[NDIRECT] != 0 then 1 else 2
    ensures DataBlock(v, bn) != 0 ==> PointerThere(v, bn)
  {
    assert Missing(v, bn, bn) == 0;
    if bn >= NDIRECT && v.ip.addrs[NDIRECT] == 0 {
      NothingBehind(v, bn);
    }
  }

  /** The block was there. */
  lemma MappedAlready(v: View, own: map<nat, Owner>, l: set<nat>, bn: nat)
    requires Inv(v, own) && bn < MAXFILE && DataBlock(v, bn) != 0
    ensures BMapped(v, own, v, own, l, l, bn, DataBlock(v, bn), {}, {})
  {
    hide SlotOk, OwnerOk, BitOk, Grew, RangeCost;
    OneCost(v, bn);
    GrewNothing(v, own);
    assert Holes(v, v, bn, bn + 1);
    if bn >= NDIRECT && v.ip.addrs[NDIRECT] == 0 {
      NothingBehind(v, bn);
    }
  }

  lemma GrewNothing(v: View, own: map<nat, Owner>)
    requires Inv(v, own)
    ensures Grew(v, v)
  {
    PrivateChange(v, own, v, {});
  }

  lemma MappedDirect(v: View, own: map<nat, Owner>, w: View, own2: map<nat, Owner>, l0: set<nat>, l1: set<nat>,
                     bn: nat, addr: nat, bm: set<nat>)
    requires v.Shape() && bn < NDIRECT && v.ip.addrs[bn] == 0 && Inv(w, own2) && addr == DataBlock(w, bn) && addr != 0
    requires Grew(v, w) && Holes(v, w, bn, bn + 1) && w.ip.addrs[NDIRECT] == v.ip.addrs[NDIRECT]
    requires |bm| <= 1 && l1 == l0 + (bm + {addr}) && OnlyBlocks(v, w, bm + {addr}) && InFs(v.sb, bm + {addr})
    requires |own2| == |own| + 1
    ensures BMapped(v, own, w, own2, l0, l1, bn, addr, bm, bm + {addr})
  {
    hide Inv, Grew, OnlyBlocks, InFs, Holes;
    InvShape(w, own2);
    OneCost(v, bn);
  }

  lemma InvShape(v: View, own: map<nat, Owner>)
    requires Inv(v, own)
    ensures v.Shape()
  {
  }

  /** Behind the indirect block: first that block (from v to u, blocks x1), then the entry (from u to w, blocks x2). */
  lemma MappedBehind(v: View, own: map<nat, Owner>, u: View, own1: map<nat, Owner>, w: View, own2: map<nat, Owner>,
                     l0: set<nat>, l1: set<nat>, l2: set<nat>, bn: nat, addr: nat,
                     bm1: set<nat>, x1: set<nat>, bm2: set<nat>, x2: set<nat>)
    requires v.Shape() && u.Shape() && NDIRECT <= bn < MAXFILE && DataBlock(v, bn) == 0
    requires Grew(v, u) && Holes(v, u, 0, 0) && u.ip.addrs[NDIRECT] != 0 && OnlyBlocks(v, u, x1) && InFs(v.sb, x1)
    requires v.ip.addrs[NDIRECT] != 0 ==> u.ip == v.ip && bm1 == {} && |own1| == |own|
    requires v.ip.addrs[NDIRECT] == 0 ==> |own1| == |own| + 1
    requires |bm1| <= 1 && l1 == l0 + x1 && x1 <= bm1 + {u.ip.addrs[NDIRECT]}
    requires Inv(w, own2) && Grew(u, w) && Holes(u, w, bn, bn + 1) && w.ip == u.ip && OnlyBlocks(u, w, x2)
    requires InFs(v.sb, x2)
    requires |own2| == |own1| + 1 && |bm2| <= 1 && l2 == l1 + x2 && x2 <= bm2 + {addr, u.ip.addrs[NDIRECT]}
    requires addr == DataBlock(w, bn) && addr != 0
    ensures BMapped(v, own, w, own2, l0, l2, bn, addr, bm1 + bm2, x1 + x2)
  {
    hide Inv, Grew, OnlyBlocks, InFs, Holes, OthersKept;
    InvShape(w, own2);
    OneCost(v, bn);
    GrewTwice(v, u, w);
    OnlyBlocksTwice(v, u, w, x1, x2);
    FrameJoin(v.sb, x1, x2);
    HolesSame(v, u, w, bn, bn + 1);
    SetsJoin(l0, bm1, bm2, x1, x2, addr, u.ip.addrs[NDIRECT]);
  }

  lemma FrameJoin(sb: Super, x: set<nat>, y: set<nat>)
    requires InFs(sb, x) && InFs(sb, y)
    ensures InFs(sb, x + y)
  {
  }

  lemma SetsJoin(l0: set<nat>, bm: set<nat>, bm2: set<nat>, x: set<nat>, x2: set<nat>, addr: nat, a: nat)
    requires x <= bm + {a} && x2 <= bm2 + {addr, a}
    ensures |bm + bm2| <= |bm| + |bm2| && x + x2 <= bm + bm2 + {addr} + {a} && l0 + x + x2 == l0 + (x + x2)
    ensures bm == {} ==> |bm + bm2| <= |bm2|
  {
    if bm == {} {
      assert bm + bm2 == bm2;
    }
  }

  // ---- One block of a write ----

  /** What one block of a write does: the bytes s at pos, in file block bn; the blocks x are logged. */
  ghost predicate Stepped(v: View, own: map<nat, Owner>, w: View, own2: map<nat, Owner>, l0: set<nat>, l1: set<nat>,
                          pos: nat, bn: nat, s: seq<Byte>, x: set<nat>, bm: set<nat>, addr: nat)
  {
    && Inv(w, own2) && bn < MAXFILE && Spliced(v, w, pos, s) && Fills(v, w, bn, bn + 1)
    && |own2| == |own| + RangeCost(v, bn, bn + 1) && OnlyBlocks(v, w, x) && InFs(v.sb, x)
    && BlockCost(v.ip.addrs[NDIRECT], w.ip.addrs[NDIRECT], l0, l1, bn, RangeCost(v, bn, bn + 1), x, bm, addr)
    && (PointerThere(v, bn) ==> w.ip == v.ip)
  }

  /** bmap, then memmove into the block and log_write. */
  lemma BlockWritten(u: View, own0: map<nat, Owner>, v: View, own: map<nat, Owner>, l0: set<nat>, l1: set<nat>,
                     off: nat, bn: nat, at: nat, s: seq<Byte>, addr: nat, bm: set<nat>, x: set<nat>)
    requires bn == off / BSIZE && at == off % BSIZE && at + |s| <= BSIZE && off + |s| <= MAXFILE * BSIZE
    requires BMapped(u, own0, v, own, l0, l1, bn, addr, bm, x)
    ensures addr < |v.disk|
    ensures var w := v.(disk := v.disk[addr := Overwrite(v.disk[addr], at, s)]);
            Stepped(u, own0, w, own, l0, l1 + {addr}, off, bn, s, x + {addr}, bm, addr)
  {
    hide Inv, Grew, Spliced, OnlyBlocks, InFs, Holes, RangeCost, DataBlock, PointerThere, BlockCost;
    InvShape(v, own);
    GrewShape(u, v);
    BlockInside(v, own, bn);
    GrewThenWrote(u, v, own, off, s);
    var w := v.(disk := v.disk[addr := Overwrite(v.disk[addr], at, s)]);
    HolesSame(u, v, w, bn, bn + 1);
    OneBlock(v, addr, Overwrite(v.disk[addr], at, s));
    OnlyBlocksTwice(u, v, w, x, {addr});
    FrameJoin(v.sb, x, {addr});
    DataLogged(u.ip.addrs[NDIRECT], v.ip.addrs[NDIRECT], l0, l1, bn, RangeCost(u, bn, bn + 1), x, bm, addr);
  }

  lemma DataLogged(a0: nat, a1: nat, l0: set<nat>, l1: set<nat>, bn: nat, more: nat, x: set<nat>, bm: set<nat>,
                   addr: nat)
    requires BlockCost(a0, a1, l0, l1, bn, more, x, bm, addr)
    ensures BlockCost(a0, a1, l0, l1 + {addr}, bn, more, x + {addr}, bm, addr)
  {
    assert l0 + x + {addr} == l0 + (x + {addr});
  }

  lemma GrewShape(u: View, v: View)
    requires Grew(u, v)
    ensures u.Shape() && u.sb == v.sb
  {
  }

  lemma BlockInside(v: View, own: map<nat, Owner>, bn: nat)
    requires Inv(v, own) && bn < MAXFILE && DataBlock(v, bn) != 0
    ensures v.sb.datastart <= DataBlock(v, bn) < v.sb.size
  {
    assert SlotOk(v, own, v.ip.inum, DataSlot(bn));
  }

  lemma OneBlock(v: View, addr: nat, b: Block)
    requires v.Shape() && v.sb.datastart <= addr < v.sb.size
    ensures OnlyBlocks(v, v.(disk := v.disk[addr := b]), {addr}) && InFs(v.sb, {addr})
  {
  }

  // ---- The loop of writei ----

  /** From v0, the bytes s are written at off, in the file blocks a..b-1; used0 blocks were owned before. */
  ghost predicate Progress(v: View, own: map<nat, Owner>, logged: set<nat>, v0: View, used0: nat, before: set<nat>,
                           off: nat, s: seq<Byte>, a: nat, b: nat, cost: Cost)
  {
    && a <= b <= MAXFILE && Inv(v, own) && Spliced(v0, v, off, s) && Fills(v0, v, a, b)
    && CostOk(cost, before, logged, v.ip.addrs[NDIRECT], b - a, RangeCost(v0, a, b))
    && OnlyBlocks(v0, v, cost.all) && InFs(v0.sb, cost.all) && |own| == used0 + RangeCost(v0, a, b)
    && (PointersThere(v0, a, b) ==> v.ip == v0.ip)
  }

  lemma ProgressStart(v0: View, own: map<nat, Owner>, before: set<nat>, off: nat, a: nat)
    requires Inv(v0, own) && off <= MAXFILE * BSIZE && a <= MAXFILE
    ensures Progress(v0, own, before, v0, |own|, before, off, [], a, a, Cost({}, {}, {}, {}))
  {
    hide SlotOk, OwnerOk, BitOk, Spliced;
    SplicedNothing(v0, own, off);
    FillsNothing(v0, a);
    assert Missing(v0, a, a) == 0;
  }

  lemma ProgressStep(v: View, own: map<nat, Owner>, w: View, own2: map<nat, Owner>, l0: set<nat>, l1: set<nat>,
                     v0: View, used0: nat, before: set<nat>, off: nat, s: seq<Byte>, a: nat, b: nat, cost: Cost,
                     t: seq<Byte>, x: set<nat>, bm: set<nat>, addr: nat) returns (cost2: Cost)
    requires Progress(v, own, l0, v0, used0, before, off, s, a, b, cost)
    requires Stepped(v, own, w, own2, l0, l1, off + |s|, b, t, x, bm, addr)
    ensures Progress(w, own2, l1, v0, used0, before, off, s + t, a, b + 1, cost2)
  {
    hide Inv, Spliced, Fills, CostOk, BlockCost, OnlyBlocks, InFs, RangeCost, PointersThere, PointerThere;
    InvShape(v, own);
    InvShape(w, own2);
    SplicedShape(v0, v, off, s);
    SplicedTwice(v0, v, w, off, s, t);
    CostAfter(v0, v, a, b, b, b + 1);
    FillsTwice(v0, v, w, a, b, b, b + 1);
    cost2 := CostMore(cost, before, l0, l1, v.ip.addrs[NDIRECT], w.ip.addrs[NDIRECT], b - a, RangeCost(v0, a, b),
                      RangeCost(v0, a, b + 1), b, RangeCost(v, b, b + 1), x, bm, addr);
    OnlyBlocksTwice(v0, v, w, cost.all, x);
    FrameJoin(v0.sb, cost.all, x);
    PointersStep(v0, v, a, b);
  }

  lemma SplicedShape(v: View, w: View, off: nat, s: seq<Byte>)
    requires Spliced(v, w, off, s)
    ensures v.Shape() && w.sb == v.sb && w.ip.size == v.ip.size && w.ip.inum == v.ip.inum
  {
  }

  /** The state v of writei after `tot` bytes. */
  ghost predicate Writing(v: View, own: map<nat, Owner>, logged: set<nat>, v0: View, used0: nat, before: set<nat>,
                          src: seq<Byte>, off: nat, tot: nat, cost: Cost)
  {
    && tot <= |src| && off + |src| <= MAXFILE * BSIZE && (0 < tot < |src| ==> (off + tot) % BSIZE == 0)
    && Progress(v, own, logged, v0, used0, before, off, src[..tot], off / BSIZE, TopBlock(off, tot), cost)
  }

  lemma WritingStart(v0: View, own: map<nat, Owner>, before: set<nat>, src: seq<Byte>, off: nat)
    requires Inv(v0, own) && off + |src| <= MAXFILE * BSIZE
    ensures Writing(v0, own, before, v0, |own|, before, src, off, 0, Cost({}, {}, {}, {}))
  {
    hide Progress;
    assert src[..0] == [];
    ProgressStart(v0, own, before, off, off / BSIZE);
  }

  lemma WritingStep(v: View, own: map<nat, Owner>, w: View, own2: map<nat, Owner>, l0: set<nat>, l1: set<nat>,
                    v0: View, used0: nat, before: set<nat>, src: seq<Byte>, off: nat, tot: nat, cost: Cost,
                    m: nat, x: set<nat>, bm: set<nat>, addr: nat) returns (cost2: Cost)
    requires Writing(v, own, l0, v0, used0, before, src, off, tot, cost)
    requires tot < |src| && m == Fitting(off + tot, |src| - tot)
    requires Stepped(v, own, w, own2, l0, l1, off + tot, (off + tot) / BSIZE, src[tot..tot + m], x, bm, addr)
    ensures Writing(w, own2, l1, v0, used0, before, src, off, tot + m, cost2)
  {
    hide Progress, Stepped;
    NextBlock(off, tot, m);
    assert src[..tot] + src[tot..tot + m] == src[..tot + m] && |src[..tot]| == tot;
    cost2 := ProgressStep(v, own, w, own2, l0, l1, v0, used0, before, off, src[..tot],
                          off / BSIZE, TopBlock(off, tot), cost, src[tot..tot + m], x, bm, addr);
  }

  /** What the next block takes, counted from the start. */
  lemma WritingCount(v: View, own: map<nat, Owner>, logged: set<nat>, v0: View, used0: nat, before: set<nat>,
                     src: seq<Byte>, off: nat, tot: nat, cost: Cost, m: nat)
    requires Writing(v, own, logged, v0, used0, before, src, off, tot, cost)
    requires tot < |src| && m == Fitting(off + tot, |src| - tot)
    ensures v.Shape() && v0.Shape() && (off + tot) / BSIZE < MAXFILE
    ensures |own| + RangeCost(v, (off + tot) / BSIZE, (off + tot) / BSIZE + 1) == used0 + ByteCost(v0, off, tot + m)
  {
    hide Inv, Fills, CostOk, OnlyBlocks, InFs, RangeCost, PointersThere, Spliced;
    InvShape(v, own);
    SplicedShape(v0, v, off, src[..tot]);
    NextBlock(off, tot, m);
    CostAfter(v0, v, off / BSIZE, TopBlock(off, tot), TopBlock(off, tot), TopBlock(off, tot) + 1);
  }

  lemma PointersStep(v0: View, v: View, a: nat, b: nat)
    requires v0.Shape() && v.Shape() && a <= b && (PointersThere(v0, a, b) ==> v.ip == v0.ip)
    ensures PointersThere(v0, a, b + 1) ==> v.ip == v0.ip && PointerThere(v, b)
  {
    if PointersThere(v0, a, b + 1) {
      assert PointerThere(v0, b);
    }
  }

  // ---- The end of writei ----

  const UINT: nat := 0x1_0000_0000

  /** writei refuses to start beyond the end, to wrap around, and to outgrow the largest file. */
  predicate WriteFits(size: nat, off: nat, n: nat) {
    off <= size && off + n < UINT && off + n <= MAXFILE * BSIZE
  }

  /** How a write of src at off leaves the file: the bytes, the size, the other files, and a file without holes. */
  ghost predicate Wrote(v0: View, w: View, own: map<nat, Owner>, off: nat, src: seq<Byte>) {
    && v0.Shape() && off <= v0.ip.size <= MAXFILE * BSIZE && off + |src| <= MAXFILE * BSIZE
    && FileOk(w, own) && OthersKept(v0, w) && PointersKept(v0, w)
    && w.ip == v0.ip.(addrs := w.ip.addrs, size := Max(v0.ip.size, off + |src|))
    && Content(w, w.ip.size) == Splice(Content(v0, v0.ip.size), off, src)
    && Fills(v0, w, off / BSIZE, TopBlock(off, |src|))
    && (Dense(v0) ==> Dense(w))
    && (if off + |src| > v0.ip.size then Synced(w)
        else WordsKept(v0, w) && (PointersThere(v0, off / BSIZE, TopBlock(off, |src|)) ==> w.ip == v0.ip))
  }

  /** The inode's record on the disk is untouched. */
  ghost predicate WordsKept(v: View, w: View)
    requires v.Shape() && w.Shape() && w.sb == v.sb && w.ip.inum == v.ip.inum
  {
    forall k: nat | k < DWORDS :: WordKept(v, w, v.ip.inum, k)
  }

  /**
   When the inode on the disk is current after a write: when the file has grown, or when no
   pointer of the inode was missing for the range. writei calls iupdate for a new size only.
   */
  lemma WroteSynced(v0: View, w: View, own: map<nat, Owner>, off: nat, src: seq<Byte>)
    requires Wrote(v0, w, own, off, src) && Synced(v0)
    ensures Synced(w) <==> off + |src| > v0.ip.size || PointersThere(v0, off / BSIZE, TopBlock(off, |src|))
    ensures Dense(v0) ==> Synced(w)
  {
    if off + |src| <= v0.ip.size {
      StillSynced(v0, w);
      if w.ip == v0.ip {
        TopWithin(off, |src|);
        PointersFilled(v0, w, off / BSIZE, TopBlock(off, |src|));
      }
      if Dense(v0) {
        DensePointers(v0, off, |src|);
      }
    }
  }

  lemma DensePointers(v: View, off: nat, n: nat)
    requires v.Shape() && Dense(v) && off + n <= v.ip.size <= MAXFILE * BSIZE
    ensures PointersThere(v, off / BSIZE, TopBlock(off, n))
  {
    DenseEnd(v.ip.size, off, n);
    forall bn: nat | off / BSIZE <= bn < TopBlock(off, n) ensures PointerThere(v, bn) {
      assert FilledAt(v, BlocksFor(v.ip.size), bn);
    }
  }

  /** Two writes, the second where the first one ended, are one write. */
  lemma WroteTwice(u: View, v: View, own1: map<nat, Owner>, w: View, own2: map<nat, Owner>, off: nat, s: seq<Byte>,
                   t: seq<Byte>)
    requires Wrote(u, v, own1, off, s) && Wrote(v, w, own2, off + |s|, t)
    ensures Wrote(u, w, own2, off, s + t)
  {
    hide Inv, OthersKept, PointersKept, Content, Splice, Fills, Dense, Synced, WordsKept, TopBlock;
    KeptShape(u, v);
    KeptShape(v, w);
    OthersKeptTwice(u, v, w);
    PointersKeptTwice(u, v, w);
    WroteBytes(u, v, w, off, s, t);
    WroteFills(u, v, w, off, |s|, |t|);
    if off + |s| + |t| <= u.ip.size {
      WordsKeptTwice(u, v, w);
      if PointersThere(u, off / BSIZE, TopBlock(off, |s + t|)) {
        PointersParts(u, v, off, |s|, |t|);
      }
    } else if off + |s| + |t| <= v.ip.size {
      TopContinues(off, |s|, 1);
      NothingWritten(v, w, off + |s|);
    }
  }

  lemma KeptShape(v: View, w: View)
    requires OthersKept(v, w)
    ensures v.Shape() && w.Shape() && w.sb == v.sb && w.ip.inum == v.ip.inum
  {
  }

  lemma WroteBytes(u: View, v: View, w: View, off: nat, s: seq<Byte>, t: seq<Byte>)
    requires u.Shape() && v.Shape() && w.Shape() && off <= u.ip.size <= MAXFILE * BSIZE
    requires v.ip.size == Max(u.ip.size, off + |s|)
    requires v.ip.size <= MAXFILE * BSIZE && w.ip.size == Max(v.ip.size, off + |s| + |t|) <= MAXFILE * BSIZE
    requires Content(v, v.ip.size) == Splice(Content(u, u.ip.size), off, s)
    requires Content(w, w.ip.size) == Splice(Content(v, v.ip.size), off + |s|, t)
    ensures w.ip.size == Max(u.ip.size, off + |s + t|)
    ensures Content(w, w.ip.size) == Splice(Content(u, u.ip.size), off, s + t)
  {
    SpliceTwice(Content(u, u.ip.size), off, s, t);
  }

  lemma WroteFills(u: View, v: View, w: View, off: nat, n: nat, m: nat)
    requires Fills(u, v, off / BSIZE, TopBlock(off, n)) && Fills(v, w, (off + n) / BSIZE, TopBlock(off + n, m))
    ensures Fills(u, w, off / BSIZE, TopBlock(off, n + m))
  {
    if m > 0 {
      TopContinues(off, n, m);
      FillsTwice(u, v, w, off / BSIZE, TopBlock(off, n), (off + n) / BSIZE, TopBlock(off + n, m));
    } else {
      FillsLess(u, v, w, off / BSIZE, TopBlock(off, n), (off + n) / BSIZE);
    }
  }

  lemma FillsLess(u: View, v: View, w: View, a: nat, b: nat, c: nat)
    requires Fills(u, v, a, b) && Fills(v, w, c, c)
    ensures Fills(u, w, a, b)
  {
    forall x: nat | x < MAXFILE ensures HoleAt(u, w, a, b, x) {
      assert HoleAt(u, v, a, b, x) && HoleAt(v, w, c, c, x);
    }
  }

  lemma WordsKeptTwice(u: View, v: View, w: View)
    requires u.Shape() && v.Shape() && w.Shape() && u.sb == v.sb == w.sb && u.ip.inum == v.ip.inum == w.ip.inum
    requires WordsKept(u, v) && WordsKept(v, w)
    ensures WordsKept(u, w)
  {
    forall k: nat | k < DWORDS ensures WordKept(u, w, u.ip.inum, k) {
      assert WordKept(u, v, u.ip.inum, k) && WordKept(v, w, v.ip.inum, k);
    }
  }

  lemma PointersParts(u: View, v: View, off: nat, n: nat, m: nat)
    requires u.Shape() && v.Shape() && PointersThere(u, off / BSIZE, TopBlock(off, n + m))
    requires PointersThere(u, off / BSIZE, TopBlock(off, n)) ==> v.ip == u.ip
    ensures v.ip == u.ip && PointersThere(v, (off + n) / BSIZE, TopBlock(off + n, m))
  {
    TopMonotone(off, n, n + m);
    assert forall bn: nat | off / BSIZE <= bn < TopBlock(off, n) :: PointerThere(u, bn);
    if m > 0 {
      TopContinues(off, n, m);
      forall bn: nat | (off + n) / BSIZE <= bn < TopBlock(off + n, m) ensures PointerThere(v, bn) {
        assert PointerThere(u, bn);
      }
    }
  }

  /** Writing nothing leaves the inode as it was. */
  lemma NothingWritten(v: View, w: View, off: nat)
    requires v.Shape() && w.Shape() && w.sb == v.sb && w.ip == v.ip.(addrs := w.ip.addrs) && Synced(v)
    requires WordsKept(v, w)
    requires PointersThere(v, off / BSIZE, TopBlock(off, 0)) ==> w.ip == v.ip
    ensures Synced(w)
  {
    StillSynced(v, w);
  }

  /** The file has grown: the new size, and the inode on disk. */
  lemma WroteBeyond(v0: View, v: View, own: map<nat, Owner>, off: nat, src: seq<Byte>)
    requires v0.Shape() && Inv(v, own) && v.cut == 0 && off <= v0.ip.size < off + |src|
    requires Spliced(v0, v, off, src) && Fills(v0, v, off / BSIZE, TopBlock(off, |src|))
    ensures Wrote(v0, Updated(v.(ip := v.ip.(size := off + |src|))), own, off, src)
  {
    hide Inv, OthersKept, BytesKept, Holes, Synced;
    InvShape(v, own);
    var n := off + |src|;
    var w1 := v.(ip := v.ip.(size := n));
    var w := Updated(w1);
    Resized(v, own, n);
    UpdatedInv(w1, own);
    OthersKeptTwice(v0, v, w1);
    OthersKeptTwice(v0, w1, w);
    SplicedContent(v0, v, v0.ip.size, off, src);
    SameContent(v, w1, n);
    SameContent(w1, w, n);
    HolesSame(v0, v, w1, off / BSIZE, TopBlock(off, |src|));
    HolesSame(v0, w1, w, off / BSIZE, TopBlock(off, |src|));
    forall k: nat | k <= NDIRECT ensures PointerKept(v0, w, k) {
      assert PointerKept(v0, v, k);
    }
    if Dense(v0) {
      DenseWrite(v0, w, off, |src|);
    }
  }

  /** The file has not grown. The inode's disk copy is current unless a pointer of the inode was missing. */
  lemma WroteInside(v0: View, v: View, own: map<nat, Owner>, off: nat, src: seq<Byte>)
    requires v0.Shape() && Inv(v, own) && v.cut == 0 && off + |src| <= v0.ip.size <= MAXFILE * BSIZE
    requires Spliced(v0, v, off, src) && Fills(v0, v, off / BSIZE, TopBlock(off, |src|))
    requires PointersThere(v0, off / BSIZE, TopBlock(off, |src|)) ==> v.ip == v0.ip
    ensures Wrote(v0, v, own, off, src)
  {
    SplicedContent(v0, v, v0.ip.size, off, src);
    if Dense(v0) {
      DenseWrite(v0, v, off, |src|);
    }
  }

  /** Where nothing changed in the inode, no pointer was missing. */
  lemma PointersFilled(v: View, w: View, a: nat, b: nat)
    requires Fills(v, w, a, b) && w.ip == v.ip && b <= MAXFILE
    ensures PointersThere(v, a, b)
  {
    forall bn: nat | a <= bn < b ensures PointerThere(v, bn) {
      assert HoleAt(v, w, a, b, bn);
    }
  }

  // ---- filewrite, chunk after chunk ----

  /** How much filewrite writes on a disk that does not fill up: all of it, or the whole chunks below the size limit. */
  function Written(size: nat, off: nat, n: int): (w: nat)
    requires size <= MAXFILE * BSIZE
    ensures off <= size ==> off + w <= MAXFILE * BSIZE
    ensures off > size ==> w == 0
  {
    if n <= 0 || off > size then 0
    else if WriteFits(size, off, n) then n
    else (MAXFILE * BSIZE - off) / CHUNK * CHUNK
  }

  /** The blocks that takes. */
  function FileCost(v: View, off: nat, n: int): nat
    requires v.Shape() && v.ip.size <= MAXFILE * BSIZE
  {
    if off > v.ip.size then 0 else ByteCost(v, off, Written(v.ip.size, off, n))
  }

  /** The state v of filewrite after i bytes, started on v0 with used0 blocks owned. */
  ghost predicate Appending(v: View, own: map<nat, Owner>, v0: View, used0: nat, off: nat, addr: seq<Byte>, i: nat) {
    && v0.Shape() && v0.ip.size <= MAXFILE * BSIZE && i <= |addr|
    && (if off <= v0.ip.size then
          off + i <= MAXFILE * BSIZE && Wrote(v0, v, own, off, addr[..i]) && |own| == used0 + ByteCost(v0, off, i)
        else i == 0 && v == v0 && FileOk(v, own) && OthersKept(v0, v) && |own| == used0)
  }

  lemma AppendingStart(v0: View, own: map<nat, Owner>, off: nat, addr: seq<Byte>)
    requires FileOk(v0, own)
    ensures Appending(v0, own, v0, |own|, off, addr, 0)
  {
    hide OthersKept, SlotOk, OwnerOk, BitOk, Holes;
    PrivateChange(v0, own, v0, {});
    if off <= v0.ip.size {
      assert Splice(Content(v0, v0.ip.size), off, addr[..0]) == Content(v0, v0.ip.size);
      FillsNothing(v0, off / BSIZE);
      assert Missing(v0, off / BSIZE, off / BSIZE) == 0;
    }
  }

  lemma AppendingStep(v: View, own: map<nat, Owner>, w: View, own2: map<nat, Owner>, v0: View, used0: nat,
                      off: nat, addr: seq<Byte>, i: nat, m: nat)
    requires Appending(v, own, v0, used0, off, addr, i) && i + m <= |addr| && off <= v0.ip.size
    requires Wrote(v, w, own2, off + i, addr[i..i + m]) && |own2| == |own| + ByteCost(v, off + i, m)
    ensures Appending(w, own2, v0, used0, off, addr, i + m)
  {
    hide Wrote, ByteCost;
    assert addr[..i] + addr[i..i + m] == addr[..i + m] && |addr[..i]| == i && |addr[i..i + m]| == m;
    WroteLimits(v, w, own2, off + i, addr[i..i + m]);
    WroteTwice(v0, v, own, w, own2, off, addr[..i], addr[i..i + m]);
    AppendedMore(v0, v, own, off, addr[..i], m);
  }

  lemma WroteLimits(v: View, w: View, own: map<nat, Owner>, off: nat, s: seq<Byte>)
    requires Wrote(v, w, own, off, s)
    ensures v.Shape() && w.Shape() && off + |s| <= MAXFILE * BSIZE && off <= v.ip.size <= MAXFILE * BSIZE
    ensures FileOk(w, own)
    ensures w.ip.size == Max(v.ip.size, off + |s|)
  {
  }

  /** What the next part takes, counted from the start. */
  lemma AppendedMore(v0: View, v: View, own: map<nat, Owner>, off: nat, s: seq<Byte>, m: nat)
    requires Wrote(v0, v, own, off, s) && off + |s| + m <= MAXFILE * BSIZE
    ensures ByteCost(v0, off, |s| + m) == ByteCost(v0, off, |s|) + ByteCost(v, off + |s|, m)
  {
    hide Inv, OthersKept, Content, Splice, Dense, Synced, WordsKept, Fills, RangeCost;
    InvShape(v, own);
    TopWithin(off, |s|);
    TopWithin(off, |s| + m);
    TopWithin(off + |s|, m);
    if m > 0 {
      TopContinues(off, |s|, m);
      CostAfter(v0, v, off / BSIZE, TopBlock(off, |s|), (off + |s|) / BSIZE, TopBlock(off + |s|, m));
    } else {
      NoCost(v, (off + |s|) / BSIZE);
    }
  }

  lemma NoCost(v: View, a: nat)
    requires v.Shape() && a <= MAXFILE
    ensures RangeCost(v, a, a) == 0
  {
  }

  /** Where a write that is under way stands. */
  lemma AppendingAt(v: View, own: map<nat, Owner>, v0: View, used0: nat, off: nat, addr: seq<Byte>, i: nat)
    requires Appending(v, own, v0, used0, off, addr, i)
    ensures FileOk(v, own) && v0.Shape() && v.sb == v0.sb && v0.ip.size <= MAXFILE * BSIZE && |own| <= Capacity(v.sb)
    ensures off <= v0.ip.size ==> off + i <= MAXFILE * BSIZE && |own| == used0 + ByteCost(v0, off, i)
    ensures off > v0.ip.size ==> |own| == used0
    ensures if off <= v0.ip.size then v.ip.size == Max(v0.ip.size, off + i) else i == 0 && v.ip.size == v0.ip.size
  {
    FreeExists(v, own);
  }

  lemma ByteCostMonotone(v: View, off: nat, i: nat, j: nat)
    requires v.Shape() && i <= j && off + j <= MAXFILE * BSIZE
    ensures ByteCost(v, off, i) <= ByteCost(v, off, j)
  {
    TopWithin(off, i);
    TopWithin(off, j);
    TopMonotone(off, i, j);
    CostMonotone(v, off / BSIZE, TopBlock(off, i), TopBlock(off, j));
  }

  /** The next chunk is refused exactly when what can be written has been written. */
  lemma NextChunk(size0: nat, size: nat, off: nat, n: nat, k: nat, i: nat, n1: nat)
    requires (if off <= size0 then size == Max(size0, off + i) else i == 0 && size == size0) && size0 <= MAXFILE * BSIZE
    requires i < n < 0x8000_0000 && i <= Written(size0, off, n) && i == k * CHUNK
    requires n1 == if n - i > CHUNK then CHUNK else n - i
    ensures WriteFits(size, off + i, n1) <==> i + n1 <= Written(size0, off, n)
    ensures !WriteFits(size, off + i, n1) ==> i == Written(size0, off, n) < n
  {
    var w, c := Written(size0, off, n), CHUNK;
    if off <= size0 {
      NextOne(MAXFILE * BSIZE - off, c, k, i, n, n1, w);
    } else {
      NextOne(0, c, k, i, n, n1, w);
    }
  }

  lemma NextOne(room: nat, c: nat, k: nat, i: nat, n: nat, n1: nat, w: nat)
    requires 0 < c && i == k * c && i < n && n1 == if n - i > c then c else n - i
    requires i <= w && w == if n <= room then n else room / c * c
    ensures i + n1 <= room <==> i + n1 <= w
    ensures i + n1 > room ==> i == w < n
  {
    if n > room {
      Multiple(room, c, k, room / c);
    }
  }

  /** A multiple of c below room is the last one exactly when the next does not fit. */
  lemma Multiple(room: nat, c: nat, k: nat, q: nat)
    requires 0 < c && k * c <= q * c <= room < q * c + c
    ensures k * c + c <= room <==> k * c + c <= q * c
    ensures k * c + c > room ==> k * c == q * c
  {
    if k < q {
      MulMonotone(k + 1, q, c);
    } else {
      MulMonotone(q, k, c);
    }
  }

  lemma MulMonotone(a: nat, b: nat, c: nat)
    requires a <= b
    ensures a * c <= b * c
  {
  }
}
