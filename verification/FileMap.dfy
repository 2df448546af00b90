/**
 Which file blocks a range of bytes reaches, how many blocks bmap has to allocate for
 them, and files without holes.
 */
module FileMap {
  import opened Blocks
  import opened Inodes
  import opened Contents

  // ---- Ranges ----

  /** The first file block behind those that the bytes off..off+n-1 lie in. */
  function TopBlock(off: nat, n: nat): nat {
    if n == 0 then off / BSIZE else (off + n - 1) / BSIZE + 1
  }

  /** How many file blocks that are. */
  function Span(off: nat, n: nat): nat {
    TopBlock(off, n) - off / BSIZE
  }

  /** min(n - tot, BSIZE - off % BSIZE): what fits into the block at `pos`. */
  function Fitting(pos: nat, left: nat): (m: nat)
    requires left > 0
    ensures 1 <= m <= left && pos % BSIZE + m <= BSIZE && (m < left ==> (pos + m) % BSIZE == 0)
  {
    if left < BSIZE - pos % BSIZE then left else BSIZE - pos % BSIZE
  }

  /** Byte by byte, block by block: after tot bytes the next block is the first one behind. */
  lemma NextBlock(off: nat, tot: nat, m: nat)
    requires 1 <= m && (tot > 0 ==> (off + tot) % BSIZE == 0) && (off + tot) % BSIZE + m <= BSIZE
    ensures (off + tot) / BSIZE == TopBlock(off, tot) && TopBlock(off, tot + m) == TopBlock(off, tot) + 1
    ensures off + tot + m <= MAXFILE * BSIZE ==> TopBlock(off, tot) < MAXFILE
  {
  }

  lemma TopWithin(off: nat, n: nat)
    requires off + n <= MAXFILE * BSIZE
    ensures TopBlock(off, n) <= MAXFILE && off / BSIZE <= TopBlock(off, n)
  {
  }

  lemma TopMonotone(off: nat, n: nat, m: nat)
    requires n <= m
    ensures TopBlock(off, n) <= TopBlock(off, m)
  {
  }

  /** A range that continues another one starts in its last block or right behind it. */
  lemma TopContinues(off: nat, i: nat, m: nat)
    requires 1 <= m
    ensures off / BSIZE <= (off + i) / BSIZE <= TopBlock(off, i) <= TopBlock(off, i + m) == TopBlock(off + i, m)
  {
  }

  // ---- What bmap allocates ----

  /** The file blocks a..b-1 that are missing. */
  function Missing(v: View, a: nat, b: nat): nat
    requires v.Shape() && b <= MAXFILE
    decreases b
  {
    if b <= a then 0 else Missing(v, a, b - 1) + if DataBlock(v, b - 1) == 0 then 1 else 0
  }

  /** The blocks that bmap allocates for them: those, and the indirect block if it is missing and needed. */
  function RangeCost(v: View, a: nat, b: nat): nat
    requires v.Shape() && b <= MAXFILE
  {
    Missing(v, a, b) + if a < b && NDIRECT < b && v.ip.addrs[NDIRECT] == 0 then 1 else 0
  }

  /** The same for the bytes off..off+n-1. */
  function ByteCost(v: View, off: nat, n: nat): nat
    requires v.Shape() && off + n <= MAXFILE * BSIZE
  {
    TopWithin(off, n);
    RangeCost(v, off / BSIZE, TopBlock(off, n))
  }

  /** Without the indirect block there is nothing behind it. */
  lemma NothingBehind(v: View, bn: nat)
    requires v.Shape() && NDIRECT <= bn < MAXFILE && v.ip.addrs[NDIRECT] == 0
    ensures DataBlock(v, bn) == 0
  {
  }

  /** From v to w, bmap has seen to the file blocks a..b-1. */
  ghost predicate Fills(v: View, w: View, a: nat, b: nat) {
    && Holes(v, w, a, b)
    && (w.ip.addrs[NDIRECT] == 0 <==> v.ip.addrs[NDIRECT] == 0 && !(a < b && NDIRECT < b))
    && (v.ip.addrs[NDIRECT] != 0 ==> w.ip.addrs[NDIRECT] == v.ip.addrs[NDIRECT])
  }

  lemma FillsNothing(v: View, a: nat)
    requires v.Shape()
    ensures Fills(v, v, a, a)
  {
  }

  lemma FillsTwice(u: View, v: View, w: View, a: nat, b: nat, b1: nat, c: nat)
    requires Fills(u, v, a, b) && Fills(v, w, b1, c) && a <= b1 <= b <= c
    ensures Fills(u, w, a, c)
  {
    HolesTwice(u, v, w, a, b, b1, c);
  }

  /** What is left to allocate once the blocks up to b are there. */
  lemma {:induction false} MissingAfter(u: View, v: View, a: nat, b: nat, b1: nat, c: nat)
    requires Holes(u, v, a, b) && a <= b1 <= b <= c <= MAXFILE
    ensures Missing(u, a, c) == Missing(u, a, b) + Missing(v, b1, c)
    decreases c
  {
    if c > b {
      MissingAfter(u, v, a, b, b1, c - 1);
      assert HoleAt(u, v, a, b, c - 1);
    } else {
      NoneMissing(u, v, a, b, b1, c);
    }
  }

  lemma {:induction false} NoneMissing(u: View, v: View, a: nat, b: nat, b1: nat, c: nat)
    requires Holes(u, v, a, b) && a <= b1 && c <= b <= MAXFILE
    ensures Missing(v, b1, c) == 0
    decreases c
  {
    if c > b1 {
      NoneMissing(u, v, a, b, b1, c - 1);
      assert HoleAt(u, v, a, b, c - 1);
    }
  }

  lemma CostAfter(u: View, v: View, a: nat, b: nat, b1: nat, c: nat)
    requires Fills(u, v, a, b) && a <= b1 <= b <= c <= MAXFILE
    ensures RangeCost(u, a, c) == RangeCost(u, a, b) + RangeCost(v, b1, c)
  {
    MissingAfter(u, v, a, b, b1, c);
  }

  lemma {:induction false} CostMonotone(v: View, a: nat, b: nat, c: nat)
    requires v.Shape() && b <= c <= MAXFILE
    ensures RangeCost(v, a, b) <= RangeCost(v, a, c)
    decreases c
  {
    if b < c {
      CostMonotone(v, a, b, c - 1);
    }
  }

  lemma {:induction false} CostBound(v: View, a: nat, b: nat)
    requires v.Shape() && a <= b <= MAXFILE
    ensures Missing(v, a, b) <= b - a && RangeCost(v, a, b) <= b - a + 1
    ensures a < b && DataBlock(v, a) != 0 ==> Missing(v, a, b) <= b - a - 1
    decreases b
  {
    if a < b {
      CostBound(v, a, b - 1);
    }
  }

  /** Nothing costs exactly if nothing is missing. */
  lemma {:induction false} CostsNothing(v: View, a: nat, b: nat)
    requires v.Shape() && b <= MAXFILE
    ensures RangeCost(v, a, b) == 0 <==> forall c: nat | a <= c < b :: DataBlock(v, c) != 0
    decreases b
  {
    if a < b {
      CostsNothing(v, a, b - 1);
      if NDIRECT < b && v.ip.addrs[NDIRECT] == 0 {
        NothingBehind(v, b - 1);
      }
    }
  }

  // ---- Files without holes ----

  ghost predicate FilledAt(v: View, nb: nat, bn: nat)
    requires v.Shape() && bn < MAXFILE
  {
    DataBlock(v, bn) != 0 <==> bn < nb
  }

  /** Exactly the blocks of the file's size are there: no hole and nothing beyond. */
  ghost predicate Dense(v: View)
    requires v.Shape()
  {
    && (v.ip.addrs[NDIRECT] != 0 <==> NDIRECT < BlocksFor(v.ip.size))
    && forall bn: nat | bn < MAXFILE :: FilledAt(v, BlocksFor(v.ip.size), bn)
  }

  /** A write that starts within the file leaves it without holes. */
  lemma DenseWrite(v: View, w: View, off: nat, n: nat)
    requires v.Shape() && Dense(v) && off <= v.ip.size && off + n <= MAXFILE * BSIZE && w.Shape()
    requires Fills(v, w, off / BSIZE, TopBlock(off, n)) && w.ip.size == Max(v.ip.size, off + n)
    ensures Dense(w)
  {
    var nb, nb2 := BlocksFor(v.ip.size), BlocksFor(w.ip.size);
    DenseEnd(v.ip.size, off, n);
    forall bn: nat | bn < MAXFILE ensures FilledAt(w, nb2, bn) {
      assert FilledAt(v, nb, bn) && HoleAt(v, w, off / BSIZE, TopBlock(off, n), bn);
    }
  }

  lemma DenseEnd(size: nat, off: nat, n: nat)
    requires off <= size
    ensures off / BSIZE <= BlocksFor(size)
    ensures n > 0 ==> BlocksFor(Max(size, off + n)) == Max(BlocksFor(size), TopBlock(off, n))
    ensures n == 0 ==> Max(size, off + n) == size
    ensures off + n <= size ==> TopBlock(off, n) <= BlocksFor(size) || n == 0
    ensures off % BSIZE != 0 ==> off / BSIZE < BlocksFor(size)
  {
  }

  /** Inside a file without holes nothing is missing. */
  lemma DenseCost(v: View, off: nat, n: nat)
    requires v.Shape() && Dense(v) && off + n <= v.ip.size <= MAXFILE * BSIZE
    ensures ByteCost(v, off, n) == 0
  {
    DenseEnd(v.ip.size, off, n);
    TopWithin(off, n);
    forall c: nat | off / BSIZE <= c < TopBlock(off, n) ensures DataBlock(v, c) != 0 {
      assert FilledAt(v, BlocksFor(v.ip.size), c);
    }
    CostsNothing(v, off / BSIZE, TopBlock(off, n));
  }
}
