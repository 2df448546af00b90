/**
 The bytes of the in-memory inode, and how each block-level step of bmap, writei and
 iupdate acts on them and on everybody else's blocks.
 */
module Contents {
  import opened Blocks
  import opened Collections
  import opened Inodes

  /** The slot of file block bn. */
  function DataSlot(bn: nat): nat {
    if bn < NDIRECT then bn else bn + 1
  }

  function DataBlock(v: View, bn: nat): Word
    requires v.Shape() && bn < MAXFILE
  {
    SlotOf(v, v.ip.inum, DataSlot(bn))
  }

  /** Byte k; where the file has no block, a hole, it is the zero that a new block holds. */
  function ByteAt(v: View, k: nat): Byte
    requires v.Shape() && k < MAXFILE * BSIZE
  {
    if 0 < DataBlock(v, k / BSIZE) < |v.disk| then v.disk[DataBlock(v, k / BSIZE)][k % BSIZE] else 0
  }

  /** The first n bytes of the file. */
  function Content(v: View, n: nat): (c: seq<Byte>)
    requires v.Shape() && n <= MAXFILE * BSIZE
    ensures |c| == n && forall k | 0 <= k < n :: c[k] == ByteAt(v, k)
  {
    seq(n, k requires 0 <= k < n => ByteAt(v, k))
  }

  /** How many blocks n bytes take. */
  function BlocksFor(n: nat): nat {
    (n + BSIZE - 1) / BSIZE
  }

  /** Writing s at off into the byte sequence c, which grows if need be. */
  function Splice(c: seq<Byte>, off: nat, s: seq<Byte>): (r: seq<Byte>)
    requires off <= |c|
    ensures |r| == if off + |s| > |c| then off + |s| else |c|
    ensures forall k | 0 <= k < |r| :: r[k] == if off <= k < off + |s| then s[k - off] else c[k]
  {
    if off + |s| > |c| then c[..off] + s else c[..off] + s + c[off + |s|..]
  }

  lemma SpliceTwice(c: seq<Byte>, off: nat, s: seq<Byte>, t: seq<Byte>)
    requires off <= |c|
    ensures Splice(Splice(c, off, s), off + |s|, t) == Splice(c, off, s + t)
  {
  }

  // ---- Who is affected ----

  /** Nothing but the listed blocks differs between the two disks. */
  ghost predicate OnlyBlocks(v: View, w: View, s: set<nat>) {
    |v.disk| == |w.disk| && forall x: nat | x < |v.disk| && x !in s :: w.disk[x] == v.disk[x]
  }

  lemma OnlyBlocksTwice(u: View, v: View, w: View, s: set<nat>, t: set<nat>)
    requires OnlyBlocks(u, v, s) && OnlyBlocks(v, w, t)
    ensures OnlyBlocks(u, w, s + t)
  {
  }

  /** Blocks outside the boot block, the superblock and the log. */
  ghost predicate InFs(sb: Super, s: set<nat>) {
    forall x | x in s :: sb.inodestart <= x < sb.size
  }

  ghost predicate WordKept(v: View, w: View, i: nat, k: nat)
    requires v.Shape() && w.Shape() && w.sb == v.sb && i < v.sb.ninodes && k < DWORDS
  {
    DiskWord(w, i, k) == DiskWord(v, i, k)
  }

  ghost predicate SlotKept(v: View, w: View, i: nat, s: nat)
    requires v.Shape() && w.Shape() && w.sb == v.sb && i < v.sb.ninodes && s < SLOTS
  {
    var b := SlotOf(v, i, s);
    SlotOf(w, i, s) == b && (0 < b < |v.disk| ==> w.disk[b] == v.disk[b])
  }

  /** Every other inode keeps its disk record, its pointers and the blocks they lead to. */
  ghost predicate OthersKept(v: View, w: View) {
    && v.Shape() && w.Shape() && w.sb == v.sb && w.ip.inum == v.ip.inum
    && (forall i: nat, k: nat | i < v.sb.ninodes && i != v.ip.inum && k < DWORDS :: WordKept(v, w, i, k))
    && (forall i: nat, s: nat | i < v.sb.ninodes && i != v.ip.inum && s < SLOTS :: SlotKept(v, w, i, s))
  }

  lemma OthersKeptTwice(u: View, v: View, w: View)
    requires OthersKept(u, v) && OthersKept(v, w)
    ensures OthersKept(u, w)
  {
    forall i: nat, k: nat | i < u.sb.ninodes && i != u.ip.inum && k < DWORDS ensures WordKept(u, w, i, k) {
      assert WordKept(u, v, i, k) && WordKept(v, w, i, k);
    }
    forall i: nat, s: nat | i < u.sb.ninodes && i != u.ip.inum && s < SLOTS ensures SlotKept(u, w, i, s) {
      assert SlotKept(u, v, i, s) && SlotKept(v, w, i, s);
    }
  }

  /** Blocks that no other inode depends on: free-map blocks, unused blocks, and the inode's own. */
  ghost predicate Private(v: View, own: map<nat, Owner>, x: nat)
    requires v.Shape()
  {
    || (v.sb.bmapstart <= x < v.sb.datastart)
    || (v.sb.datastart <= x < v.sb.size && (x !in own || own[x].inum == v.ip.inum))
  }

  lemma PrivateChange(v: View, own: map<nat, Owner>, w: View, xs: set<nat>)
    requires Inv(v, own) && w.Shape() && w.sb == v.sb && w.ip.inum == v.ip.inum
    requires OnlyBlocks(v, w, xs) && forall x | x in xs :: Private(v, own, x)
    ensures OthersKept(v, w)
  {
    forall i: nat, k: nat | i < v.sb.ninodes && i != v.ip.inum && k < DWORDS ensures WordKept(v, w, i, k) {
      InodeBlockPublic(v, own, xs, i);
    }
    forall i: nat, s: nat | i < v.sb.ninodes && i != v.ip.inum && s < SLOTS ensures SlotKept(v, w, i, s) {
      InodeBlockPublic(v, own, xs, i);
      assert SlotOk(v, own, i, NDIRECT) && SlotOk(v, own, i, s);
      assert AddrOf(w, i, NDIRECT) == AddrOf(v, i, NDIRECT);
    }
  }

  lemma InodeBlockPublic(v: View, own: map<nat, Owner>, xs: set<nat>, i: nat)
    requires v.Shape() && i < v.sb.ninodes && forall x | x in xs :: Private(v, own, x)
    ensures v.sb.IBlock(i) !in xs
  {
    assert i / IPB <= v.sb.ninodes / IPB;
  }

  /** The same block or none, with the same byte in it. */
  ghost predicate ByteKept(v: View, w: View, k: nat)
    requires v.Shape() && w.Shape() && k < MAXFILE * BSIZE
  {
    ByteAt(w, k) == ByteAt(v, k)
  }

  ghost predicate BytesKept(v: View, w: View) {
    v.Shape() && w.Shape() && forall k: nat | k < MAXFILE * BSIZE :: ByteKept(v, w, k)
  }

  lemma SameContent(v: View, w: View, n: nat)
    requires BytesKept(v, w) && n <= MAXFILE * BSIZE
    ensures Content(w, n) == Content(v, n)
  {
    forall k | 0 <= k < n ensures Content(w, n)[k] == Content(v, n)[k] {
      assert ByteKept(v, w, k);
    }
  }

  // ---- Which blocks are there ----

  ghost predicate HoleAt(v: View, w: View, a: nat, b: nat, c: nat)
    requires v.Shape() && w.Shape() && c < MAXFILE
  {
    DataBlock(w, c) == 0 <==> DataBlock(v, c) == 0 && !(a <= c < b)
  }

  /** The holes of w are those of v, without the file blocks a..b-1. */
  ghost predicate Holes(v: View, w: View, a: nat, b: nat) {
    v.Shape() && w.Shape() && forall c: nat | c < MAXFILE :: HoleAt(v, w, a, b, c)
  }

  lemma HolesTwice(u: View, v: View, w: View, a: nat, b: nat, b1: nat, c: nat)
    requires Holes(u, v, a, b) && Holes(v, w, b1, c) && a <= b1 <= b <= c
    ensures Holes(u, w, a, c)
  {
    forall x: nat | x < MAXFILE ensures HoleAt(u, w, a, c, x) {
      assert HoleAt(u, v, a, b, x) && HoleAt(v, w, b1, c, x);
    }
  }

  /** A step that fills no hole, before or after one that does. */
  lemma HolesSame(u: View, v: View, w: View, a: nat, b: nat)
    requires (Holes(u, v, 0, 0) && Holes(v, w, a, b)) || (Holes(u, v, a, b) && Holes(v, w, 0, 0))
    ensures Holes(u, w, a, b)
  {
    forall x: nat | x < MAXFILE ensures HoleAt(u, w, a, b, x) {
      if Holes(u, v, 0, 0) && Holes(v, w, a, b) {
        assert HoleAt(u, v, 0, 0, x) && HoleAt(v, w, a, b, x);
      } else {
        assert HoleAt(u, v, a, b, x) && HoleAt(v, w, 0, 0, x);
      }
    }
  }

  /** Growing changes no byte: what was a hole is a block of zeros now. */
  lemma GainKeepsBytes(v: View, own: map<nat, Owner>, w: View, s0: nat, b: nat, xs: set<nat>)
    requires Inv(v, own) && Gains(v, w, s0, b) && SlotOf(v, v.ip.inum, s0) == 0 && w.disk[b] == Zeros()
    requires OnlyBlocks(v, w, xs)
    requires forall x | x in xs :: x < v.sb.datastart || x !in own || own[x] == Owner(v.ip.inum, NDIRECT)
    ensures BytesKept(v, w)
  {
    forall k: nat | k < MAXFILE * BSIZE ensures ByteKept(v, w, k) {
      var bn := k / BSIZE;
      assert SlotOk(v, own, v.ip.inum, DataSlot(bn));
      assert SlotChange(v, w, s0, b, v.ip.inum, DataSlot(bn));
    }
  }

  lemma GainHoles(v: View, w: View, s0: nat, b: nat, bn: nat)
    requires v.Shape() && Gains(v, w, s0, b) && b != 0
    ensures bn < MAXFILE && s0 == DataSlot(bn) ==> Holes(v, w, bn, bn + 1) && DataBlock(w, bn) == b
    ensures s0 == NDIRECT ==> Holes(v, w, 0, 0)
  {
    var bn1 := bn + 1;
    forall c: nat | c < MAXFILE
      ensures (bn < MAXFILE && s0 == DataSlot(bn) ==> HoleAt(v, w, bn, bn1, c))
      ensures (s0 == NDIRECT ==> HoleAt(v, w, 0, 0, c))
    {
      assert SlotChange(v, w, s0, b, v.ip.inum, DataSlot(c));
    }
    if bn < MAXFILE {
      assert SlotChange(v, w, s0, b, v.ip.inum, DataSlot(bn));
    }
  }

  // ---- Data writes ----

  /** memmove into the block that holds file block bn. */
  function WriteData(v: View, bn: nat, at: nat, s: seq<Byte>): View
    requires v.Shape() && bn < MAXFILE && at + |s| <= BSIZE && DataBlock(v, bn) < |v.disk|
  {
    var a := DataBlock(v, bn);
    v.(disk := v.disk[a := Overwrite(v.disk[a], at, s)])
  }

  lemma WriteDataSlots(v: View, own: map<nat, Owner>, bn: nat, at: nat, s: seq<Byte>, i: nat, t: nat)
    requires Inv(v, own) && bn < MAXFILE && at + |s| <= BSIZE && DataBlock(v, bn) != 0
    requires i < v.sb.ninodes && t < SLOTS
    ensures v.sb.datastart <= DataBlock(v, bn) < v.sb.size
    ensures SlotOf(WriteData(v, bn, at, s), i, t) == SlotOf(v, i, t)
  {
    assert SlotOk(v, own, v.ip.inum, DataSlot(bn));
    LayoutApart(v, i, 0, DataBlock(v, bn));
    SlotsDiffer(v, own, i, NDIRECT, v.ip.inum, DataSlot(bn));
  }

  lemma WriteDataInv(v: View, own: map<nat, Owner>, bn: nat, at: nat, s: seq<Byte>)
    requires Inv(v, own) && bn < MAXFILE && at + |s| <= BSIZE && DataBlock(v, bn) != 0
    ensures v.sb.datastart <= DataBlock(v, bn) < v.sb.size
    ensures Inv(WriteData(v, bn, at, s), own) && OthersKept(v, WriteData(v, bn, at, s))
  {
    assert SlotOk(v, own, v.ip.inum, DataSlot(bn));
    var a := DataBlock(v, bn);
    var w := WriteData(v, bn, at, s);
    forall i: nat, t: nat | i < w.sb.ninodes && t < SLOTS ensures SlotOk(w, own, i, t) {
      WriteDataSlots(v, own, bn, at, s, i, t);
      assert SlotOk(v, own, i, t);
    }
    forall c | c in own ensures OwnerOk(w, own, c) {
      assert OwnerOk(v, own, c);
      WriteDataSlots(v, own, bn, at, s, own[c].inum, own[c].slot);
    }
    forall c: nat | c < w.sb.size ensures BitOk(w, own, c) {
      LayoutApart(v, v.ip.inum, c, a);
      assert BitOk(v, own, c);
    }
    PrivateChange(v, own, w, {a});
  }

  /** The write splices s into the file, changes no other byte, and leaves the pointers alone. */
  lemma WriteDataBytes(v: View, own: map<nat, Owner>, off: nat, s: seq<Byte>)
    requires Inv(v, own) && off + |s| <= MAXFILE * BSIZE && off % BSIZE + |s| <= BSIZE && off / BSIZE < MAXFILE
    requires DataBlock(v, off / BSIZE) != 0
    ensures v.sb.datastart <= DataBlock(v, off / BSIZE) < v.sb.size
    ensures var w := WriteData(v, off / BSIZE, off % BSIZE, s);
            Holes(v, w, 0, 0) && forall k: nat | k < MAXFILE * BSIZE :: SplicedAt(v, w, off, s, k)
  {
    var bn, at := off / BSIZE, off % BSIZE;
    WriteDataInv(v, own, bn, at, s);
    var w := WriteData(v, bn, at, s);
    forall c: nat | c < MAXFILE ensures HoleAt(v, w, 0, 0, c) {
      WriteDataSlots(v, own, bn, at, s, v.ip.inum, DataSlot(c));
    }
    forall k: nat | k < MAXFILE * BSIZE ensures SplicedAt(v, w, off, s, k) {
      WriteDataByte(v, own, off, s, k);
    }
  }

  lemma WriteDataByte(v: View, own: map<nat, Owner>, off: nat, s: seq<Byte>, k: nat)
    requires Inv(v, own) && off / BSIZE < MAXFILE && off % BSIZE + |s| <= BSIZE && k < MAXFILE * BSIZE
    requires DataBlock(v, off / BSIZE) != 0
    ensures DataBlock(v, off / BSIZE) < |v.disk|
    ensures SplicedAt(v, WriteData(v, off / BSIZE, off % BSIZE, s), off, s, k)
  {
    var bn, at, c := off / BSIZE, off % BSIZE, k / BSIZE;
    assert SlotOk(v, own, v.ip.inum, DataSlot(c)) && SlotOk(v, own, v.ip.inum, DataSlot(bn));
    WriteDataSlots(v, own, bn, at, s, v.ip.inum, DataSlot(c));
    SlotsDiffer(v, own, v.ip.inum, DataSlot(c), v.ip.inum, DataSlot(bn));
  }

  // ---- The inode's disk copy ----

  /** The disk copy of the inode agrees with memory. */
  ghost predicate Synced(v: View)
    requires v.Shape()
  {
    forall k: nat | k < DWORDS :: SyncedAt(v, k)
  }

  ghost predicate SyncedAt(v: View, k: nat)
    requires v.Shape() && k < DWORDS
  {
    DiskWord(v, v.ip.inum, k) == v.ip.Words()[k]
  }

  /** iupdate: the sixteen words of the inode are stored in its block. */
  function Updated(v: View): View
    requires v.Shape()
  {
    var ib := v.sb.IBlock(v.ip.inum);
    v.(disk := v.disk[ib := PutWords(v.disk[ib], v.ip.inum % IPB * DWORDS, v.ip.Words())])
  }

  lemma UpdatedWord(v: View, i: nat, k: nat)
    requires v.Shape() && i < v.sb.ninodes && k < DWORDS
    ensures DiskWord(Updated(v), i, k) == if i == v.ip.inum then v.ip.Words()[k] else DiskWord(v, i, k)
  {
    if v.sb.IBlock(i) == v.sb.IBlock(v.ip.inum) && i != v.ip.inum {
      assert i % IPB != v.ip.inum % IPB;
    }
  }

  lemma UpdatedAddr(v: View, i: nat, k: nat)
    requires v.Shape() && i < v.sb.ninodes && k <= NDIRECT
    ensures AddrOf(Updated(v), i, k) == AddrOf(v, i, k)
  {
    UpdatedWord(v, i, 3 + k);
  }

  lemma LayoutBitmap(v: View, c: nat)
    requires v.Shape() && c < v.sb.size
    ensures v.sb.bmapstart <= v.sb.BBlock(c) < v.sb.datastart
  {
    assert c / BPB <= v.sb.size / BPB;
  }

  lemma UpdatedElsewhere(v: View, x: nat)
    requires v.Shape() && v.sb.bmapstart <= x < v.sb.size
    ensures Updated(v).disk[x] == v.disk[x]
  {
    assert v.ip.inum / IPB <= v.sb.ninodes / IPB;
  }

  lemma UpdatedSlot(v: View, own: map<nat, Owner>, i: nat, s: nat)
    requires Inv(v, own) && i < v.sb.ninodes && s < SLOTS
    ensures SlotOf(Updated(v), i, s) == SlotOf(v, i, s)
  {
    if s <= NDIRECT {
      UpdatedAddr(v, i, s);
    } else {
      UpdatedAddr(v, i, NDIRECT);
      var a := AddrOf(v, i, NDIRECT);
      assert SlotOk(v, own, i, NDIRECT);
      if a != 0 {
        UpdatedElsewhere(v, a);
      }
    }
  }

  /** iupdate brings the disk copy up to date and is invisible to everyone else and to the file's bytes. */
  lemma UpdatedInv(v: View, own: map<nat, Owner>)
    requires Inv(v, own)
    ensures Inv(Updated(v), own) && Synced(Updated(v)) && OthersKept(v, Updated(v))
    ensures Holes(v, Updated(v), 0, 0) && BytesKept(v, Updated(v))
  {
    var w := Updated(v);
    forall i: nat, s: nat | i < w.sb.ninodes && s < SLOTS ensures SlotOk(w, own, i, s) && SlotKept(v, w, i, s) {
      UpdatedSlot(v, own, i, s);
      assert SlotOk(v, own, i, s);
      if SlotOf(v, i, s) != 0 {
        UpdatedElsewhere(v, SlotOf(v, i, s));
      }
    }
    forall c | c in own ensures OwnerOk(w, own, c) {
      assert OwnerOk(v, own, c);
      UpdatedSlot(v, own, own[c].inum, own[c].slot);
    }
    forall c: nat | c < w.sb.size ensures BitOk(w, own, c) {
      LayoutBitmap(v, c);
      UpdatedElsewhere(v, v.sb.BBlock(c));
      assert BitOk(v, own, c);
    }
    forall k: nat | k < DWORDS ensures SyncedAt(w, k) {
      UpdatedWord(v, v.ip.inum, k);
    }
    forall i: nat, k: nat | i < v.sb.ninodes && i != v.ip.inum && k < DWORDS ensures WordKept(v, w, i, k) {
      UpdatedWord(v, i, k);
    }
    UpdatedBytes(v, own);
  }

  lemma UpdatedBytes(v: View, own: map<nat, Owner>)
    requires Inv(v, own)
    ensures Holes(v, Updated(v), 0, 0) && BytesKept(v, Updated(v))
  {
    var w := Updated(v);
    forall c: nat | c < MAXFILE ensures HoleAt(v, w, 0, 0, c) {
      UpdatedSlot(v, own, v.ip.inum, DataSlot(c));
    }
    forall k: nat | k < MAXFILE * BSIZE ensures ByteKept(v, w, k) {
      assert SlotOk(v, own, v.ip.inum, DataSlot(k / BSIZE));
      UpdatedSlot(v, own, v.ip.inum, DataSlot(k / BSIZE));
      if DataBlock(v, k / BSIZE) != 0 {
        UpdatedElsewhere(v, DataBlock(v, k / BSIZE));
      }
    }
  }

  // ---- bmap ----

  /** The inode's own pointers are kept; missing ones may have been filled in. */
  ghost predicate PointersKept(v: View, w: View)
    requires v.Shape() && w.Shape()
  {
    forall k: nat | k <= NDIRECT :: PointerKept(v, w, k)
  }

  ghost predicate PointerKept(v: View, w: View, k: nat)
    requires v.Shape() && w.Shape() && k <= NDIRECT
  {
    v.ip.addrs[k] != 0 ==> w.ip.addrs[k] == v.ip.addrs[k]
  }

  lemma PointersKeptTwice(u: View, v: View, w: View)
    requires u.Shape() && v.Shape() && w.Shape() && PointersKept(u, v) && PointersKept(v, w)
    ensures PointersKept(u, w)
  {
    forall k: nat | k <= NDIRECT ensures PointerKept(u, w, k) {
      assert PointerKept(u, v, k) && PointerKept(v, w, k);
    }
  }

  /** What every growth step guarantees to the file and to the rest of the world. */
  ghost predicate Grew(v: View, w: View) {
    && OthersKept(v, w) && w.ip == v.ip.(addrs := w.ip.addrs) && PointersKept(v, w) && BytesKept(v, w)
    && (forall k: nat | k < DWORDS :: WordKept(v, w, v.ip.inum, k))
  }

  lemma GrewTwice(u: View, v: View, w: View)
    requires Grew(u, v) && Grew(v, w)
    ensures Grew(u, w)
  {
    OthersKeptTwice(u, v, w);
    PointersKeptTwice(u, v, w);
    forall k: nat | k < DWORDS ensures WordKept(u, w, u.ip.inum, k) {
      assert WordKept(u, v, u.ip.inum, k) && WordKept(v, w, u.ip.inum, k);
    }
    forall k: nat | k < MAXFILE * BSIZE ensures ByteKept(u, w, k) {
      assert ByteKept(u, v, k) && ByteKept(v, w, k);
    }
  }

  lemma AllocatedOnly(v: View, b: nat)
    requires v.Shape() && b < v.sb.size
    ensures forall x: nat | x < |v.disk| && x !in {v.sb.BBlock(b), b} :: Allocated(v, b)[x] == v.disk[x]
  {
  }

  /** A direct pointer or the indirect pointer gains a fresh block. */
  lemma GrowAddrStep(v: View, own: map<nat, Owner>, s0: nat, b: nat)
    requires Inv(v, own) && s0 <= NDIRECT && v.ip.addrs[s0] == 0 && b < v.sb.size && !InUse(v, b)
    ensures b !in own && b != 0
    ensures var w := GrowAddr(v, s0, b);
            && Inv(w, own[b := Owner(v.ip.inum, s0)]) && Gains(v, w, s0, b) && Grew(v, w)
            && OnlyBlocks(v, w, {v.sb.BBlock(b), b}) && InFs(v.sb, {v.sb.BBlock(b), b})
  {
    GrowAddrGains(v, own, s0, b);
    var w := GrowAddr(v, s0, b);
    GainInv(v, own, w, s0, b);
    AllocatedOnly(v, b);
    LayoutBitmap(v, b);
    var xs := {v.sb.BBlock(b), b};
    assert OnlyBlocks(v, w, xs);
    PrivateChange(v, own, w, xs);
    GainKeepsBytes(v, own, w, s0, b, xs);
    forall k: nat | k < DWORDS ensures WordKept(v, w, v.ip.inum, k) {
      LayoutApart(v, v.ip.inum, b, b);
    }
  }

  /** An entry of the indirect block gains a fresh block. */
  lemma GrowEntryStep(v: View, own: map<nat, Owner>, s0: nat, b: nat)
    requires Inv(v, own) && v.cut == 0 && NDIRECT < s0 < SLOTS && v.ip.addrs[NDIRECT] != 0
    requires SlotOf(v, v.ip.inum, s0) == 0
    requires b < v.sb.size && !InUse(v, b)
    ensures b !in own && b != 0 && v.sb.datastart <= v.ip.addrs[NDIRECT] < v.sb.size
    ensures var w, xs := GrowEntry(v, s0, b), {v.sb.BBlock(b), b, v.ip.addrs[NDIRECT]};
            && Inv(w, own[b := Owner(v.ip.inum, s0)]) && Gains(v, w, s0, b) && Grew(v, w)
            && OnlyBlocks(v, w, xs) && InFs(v.sb, xs)
  {
    hide Gains, SlotOk, OwnerOk, BitOk, OnlyBlocks, InFs, OthersKept, BytesKept, SlotOf;
    GrowEntryGains(v, own, s0, b);
    var w := GrowEntry(v, s0, b);
    GainInv(v, own, w, s0, b);
    GrowEntryFrame(v, own, s0, b);
    var xs := {v.sb.BBlock(b), b, v.ip.addrs[NDIRECT]};
    PrivateChange(v, own, w, xs);
    GainKeepsBytes(v, own, w, s0, b, xs);
    forall k: nat | k < DWORDS ensures WordKept(v, w, v.ip.inum, k) {
      LayoutApart(v, v.ip.inum, b, b);
    }
  }

  lemma GrowEntryFrame(v: View, own: map<nat, Owner>, s0: nat, b: nat)
    requires Inv(v, own) && NDIRECT < s0 < SLOTS && v.ip.addrs[NDIRECT] != 0 && b < v.sb.size && !InUse(v, b)
    ensures v.sb.datastart <= v.ip.addrs[NDIRECT] < v.sb.size
    ensures var xs := {v.sb.BBlock(b), b, v.ip.addrs[NDIRECT]};
            && OnlyBlocks(v, GrowEntry(v, s0, b), xs) && InFs(v.sb, xs) && GrowEntry(v, s0, b).disk[b] == Zeros()
            && forall x | x in xs ::
                   Private(v, own, x) && (x < v.sb.datastart || x !in own || own[x] == Owner(v.ip.inum, NDIRECT))
  {
    AllocatedOnly(v, b);
    LayoutBitmap(v, b);
    assert BitOk(v, own, b);
    assert SlotOk(v, own, v.ip.inum, NDIRECT);
  }

  /** bmap's last step for a missing file block behind the indirect block. */
  lemma EntryStep(v: View, own: map<nat, Owner>, bn: nat, b: nat) returns (w: View)
    requires Inv(v, own) && NDIRECT <= bn < MAXFILE && v.cut == 0 && v.ip.addrs[NDIRECT] != 0 && DataBlock(v, bn) == 0
    requires b < v.sb.size && !InUse(v, b)
    ensures v.sb.datastart <= v.ip.addrs[NDIRECT] < v.sb.size && b !in own && b != 0
    ensures w
            == v.(disk := Allocated(v, b)[v.ip.addrs[NDIRECT] := PutWord(v.disk[v.ip.addrs[NDIRECT]], bn - NDIRECT, b)])
    ensures Inv(w, own[b := Owner(v.ip.inum, bn + 1)]) && Grew(v, w) && Holes(v, w, bn, bn + 1) && DataBlock(w, bn) == b
    ensures var xs := {v.sb.BBlock(b), b, v.ip.addrs[NDIRECT]}; OnlyBlocks(v, w, xs) && InFs(v.sb, xs)
  {
    hide Grew, OnlyBlocks, InFs, OwnerOk, BitOk, Holes;
    GrowEntryStep(v, own, bn + 1, b);
    w := GrowEntry(v, bn + 1, b);
    GainHoles(v, w, bn + 1, b, bn);
  }

  /** bmap's step for a missing direct block. */
  lemma DirectStep(v: View, own: map<nat, Owner>, bn: nat, b: nat) returns (w: View)
    requires Inv(v, own) && bn < NDIRECT && v.ip.addrs[bn] == 0 && b < v.sb.size && !InUse(v, b)
    ensures b !in own && b != 0
    ensures w == v.(disk := Allocated(v, b), ip := v.ip.(addrs := v.ip.addrs[bn := b]))
    ensures Inv(w, own[b := Owner(v.ip.inum, bn)]) && Grew(v, w) && Holes(v, w, bn, bn + 1) && DataBlock(w, bn) == b
    ensures var xs := {v.sb.BBlock(b), b}; OnlyBlocks(v, w, xs) && InFs(v.sb, xs)
  {
    hide Grew, OnlyBlocks, InFs, OwnerOk, BitOk, Holes;
    GrowAddrStep(v, own, bn, b);
    w := GrowAddr(v, bn, b);
    GainHoles(v, w, bn, b, bn);
  }

  /** bmap's step for a missing indirect block. */
  lemma IndirectStep(v: View, own: map<nat, Owner>, b: nat) returns (w: View)
    requires Inv(v, own) && v.ip.addrs[NDIRECT] == 0 && b < v.sb.size && !InUse(v, b)
    ensures b !in own && b != 0
    ensures w == v.(disk := Allocated(v, b), ip := v.ip.(addrs := v.ip.addrs[NDIRECT := b]))
    ensures Inv(w, own[b := Owner(v.ip.inum, NDIRECT)]) && Grew(v, w) && Holes(v, w, 0, 0)
    ensures var xs := {v.sb.BBlock(b), b}; OnlyBlocks(v, w, xs) && InFs(v.sb, xs)
  {
    hide Grew, OnlyBlocks, InFs, OwnerOk, BitOk, Holes;
    GrowAddrStep(v, own, NDIRECT, b);
    w := GrowAddr(v, NDIRECT, b);
    GainHoles(v, w, NDIRECT, b, 0);
  }

  // ---- writei ----

  function Max(a: nat, b: nat): nat {
    if a < b then b else a
  }

  ghost predicate SplicedAt(v: View, w: View, off: nat, s: seq<Byte>, k: nat)
    requires v.Shape() && w.Shape() && k < MAXFILE * BSIZE
  {
    ByteAt(w, k) == if off <= k < off + |s| then s[k - off] else ByteAt(v, k)
  }

  /** From v, the bytes s have been written at off, and every other byte and everybody else is as before. */
  ghost predicate Spliced(v: View, w: View, off: nat, s: seq<Byte>) {
    && OthersKept(v, w) && w.ip == v.ip.(addrs := w.ip.addrs) && PointersKept(v, w) && off + |s| <= MAXFILE * BSIZE
    && (forall k: nat | k < DWORDS :: WordKept(v, w, v.ip.inum, k))
    && (forall k: nat | k < MAXFILE * BSIZE :: SplicedAt(v, w, off, s, k))
  }

  /** What this means for a file of n bytes. */
  lemma SplicedContent(v: View, w: View, n: nat, off: nat, s: seq<Byte>)
    requires Spliced(v, w, off, s) && off <= n <= MAXFILE * BSIZE
    ensures Content(w, Max(n, off + |s|)) == Splice(Content(v, n), off, s)
  {
    forall k | 0 <= k < Max(n, off + |s|) ensures ByteAt(w, k) == Splice(Content(v, n), off, s)[k] {
      assert SplicedAt(v, w, off, s, k);
    }
  }

  lemma SplicedNothing(v: View, own: map<nat, Owner>, off: nat)
    requires Inv(v, own) && off <= MAXFILE * BSIZE
    ensures Spliced(v, v, off, [])
  {
    PrivateChange(v, own, v, {});
  }

  /** Allocating the block and then writing into it. */
  lemma GrewThenWrote(u: View, v: View, own: map<nat, Owner>, off: nat, s: seq<Byte>)
    requires Inv(v, own) && Grew(u, v) && off / BSIZE < MAXFILE && DataBlock(v, off / BSIZE) != 0
    requires off % BSIZE + |s| <= BSIZE && off + |s| <= MAXFILE * BSIZE
    ensures DataBlock(v, off / BSIZE) < |v.disk|
    ensures var w := WriteData(v, off / BSIZE, off % BSIZE, s);
            Inv(w, own) && Spliced(u, w, off, s) && Holes(v, w, 0, 0)
  {
    WriteDataInv(v, own, off / BSIZE, off % BSIZE, s);
    WriteDataBytes(v, own, off, s);
    var w := WriteData(v, off / BSIZE, off % BSIZE, s);
    OthersKeptTwice(u, v, w);
    PointersKeptTwice(u, v, w);
    forall k: nat | k < DWORDS ensures WordKept(u, w, u.ip.inum, k) {
      assert WordKept(u, v, u.ip.inum, k);
      LayoutApart(v, v.ip.inum, 0, DataBlock(v, off / BSIZE));
    }
    forall k: nat | k < MAXFILE * BSIZE ensures SplicedAt(u, w, off, s, k) {
      assert ByteKept(u, v, k) && SplicedAt(v, w, off, s, k);
    }
  }

  lemma SplicedTwice(u: View, v: View, w: View, off: nat, s: seq<Byte>, t: seq<Byte>)
    requires Spliced(u, v, off, s) && Spliced(v, w, off + |s|, t)
    ensures Spliced(u, w, off, s + t)
  {
    OthersKeptTwice(u, v, w);
    PointersKeptTwice(u, v, w);
    forall k: nat | k < DWORDS ensures WordKept(u, w, u.ip.inum, k) {
      assert WordKept(u, v, u.ip.inum, k) && WordKept(v, w, u.ip.inum, k);
    }
    forall k: nat | k < MAXFILE * BSIZE ensures SplicedAt(u, w, off, s + t, k) {
      assert SplicedAt(u, v, off, s, k) && SplicedAt(v, w, off + |s|, t, k);
    }
  }

  /** A file: ownership holds and its size is within the limit. It may have holes. */
  ghost predicate FileOk(v: View, own: map<nat, Owner>) {
    Inv(v, own) && v.cut == 0 && v.ip.size <= MAXFILE * BSIZE
  }

  /** Where only pointers of the inode in memory changed, it is in step with the disk exactly if none did. */
  lemma StillSynced(v: View, w: View)
    requires v.Shape() && Synced(v) && w.Shape() && w.sb == v.sb && w.ip == v.ip.(addrs := w.ip.addrs)
    requires forall k: nat | k < DWORDS :: WordKept(v, w, v.ip.inum, k)
    ensures Synced(w) <==> w.ip == v.ip
  {
    forall k: nat | k < DWORDS ensures SyncedAt(w, k) <==> w.ip.Words()[k] == v.ip.Words()[k] {
      assert SyncedAt(v, k) && WordKept(v, w, v.ip.inum, k);
    }
    if Synced(w) {
      forall j | 0 <= j <= NDIRECT ensures w.ip.addrs[j] == v.ip.addrs[j] {
        assert SyncedAt(w, 3 + j) && w.ip.Words()[3 + j] == w.ip.addrs[j] && v.ip.Words()[3 + j] == v.ip.addrs[j];
      }
      assert w.ip.addrs == v.ip.addrs;
    }
  }

  /** The new size in memory changes nothing but the size. */
  lemma Resized(v: View, own: map<nat, Owner>, size: Word)
    requires Inv(v, own)
    ensures var w := v.(ip := v.ip.(size := size));
            Inv(w, own) && BytesKept(v, w) && Holes(v, w, 0, 0) && OthersKept(v, w)
  {
    var w := v.(ip := v.ip.(size := size));
    forall i: nat, s: nat | i < v.sb.ninodes && s < SLOTS
      ensures SlotOf(w, i, s) == SlotOf(v, i, s) && SlotOk(w, own, i, s)
    {
      assert SlotOk(v, own, i, s);
    }
    forall c | c in own ensures OwnerOk(w, own, c) {
      assert OwnerOk(v, own, c);
    }
    forall c: nat | c < w.sb.size ensures BitOk(w, own, c) {
      assert BitOk(v, own, c);
    }
    forall k: nat | k < MAXFILE * BSIZE ensures ByteKept(v, w, k) {
      assert SlotOf(w, v.ip.inum, DataSlot(k / BSIZE)) == SlotOf(v, v.ip.inum, DataSlot(k / BSIZE));
    }
    forall c: nat | c < MAXFILE ensures HoleAt(v, w, 0, 0, c) {
      assert SlotOf(w, v.ip.inum, DataSlot(c)) == SlotOf(v, v.ip.inum, DataSlot(c));
    }
  }

  // ---- Counting blocks ----

  /** The blocks that files can have. */
  function Capacity(sb: Super): int {
    sb.size - sb.datastart
  }

  function BlockRange(a: nat, n: nat): (r: set<nat>)
    ensures |r| == n && forall x :: x in r <==> a <= x < a + n
    decreases n
  {
    if n == 0 then {} else BlockRange(a, n - 1) + {a + n - 1}
  }

  lemma {:induction false} SomeOutside(s: set<nat>, t: set<nat>) returns (x: nat)
    requires s <= t && |s| < |t|
    ensures x in t && x !in s
    decreases |t|
  {
    var y :| y in t;
    if y in s {
      x := SomeOutside(s - {y}, t - {y});
    } else {
      x := y;
    }
  }

  lemma OwnedInRange(v: View, own: map<nat, Owner>, b: nat)
    requires Inv(v, own) && b in own
    ensures v.sb.datastart <= b < v.sb.size
  {
    assert OwnerOk(v, own, b) && SlotOk(v, own, own[b].inum, own[b].slot);
  }

  /** A block is free exactly while the files own fewer blocks than there are. */
  lemma FreeExists(v: View, own: map<nat, Owner>)
    requires Inv(v, own)
    ensures |own| <= Capacity(v.sb)
    ensures (exists c: nat :: c < v.sb.size && !InUse(v, c)) <==> |own| < Capacity(v.sb)
  {
    var keys, all := own.Keys, BlockRange(v.sb.datastart, v.sb.size - v.sb.datastart);
    assert |keys| == |own|;
    forall b | b in keys ensures b in all {
      OwnedInRange(v, own, b);
    }
    SubsetCard(keys, all);
    if |keys| < |all| {
      var b := SomeOutside(keys, all);
      assert BitOk(v, own, b);
    }
    if c: nat :| c < v.sb.size && !InUse(v, c) {
      assert BitOk(v, own, c);
      SubsetCard(keys, all - {c});
    }
  }
}
