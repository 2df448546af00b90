/**
 The root directory as mkfs leaves it. mkfs rounds the directory's size up to the next whole
 block, also where it is a whole number of blocks already; then the last block of the
 directory is a hole.
 */
module Mkfs {
  import opened Blocks
  import opened Inodes
  import opened Contents
  import opened FileMap
  import opened WriteSteps
  import opened FileSys
  import opened CrashFs
  import opened DiskBytes

  /** din.size = (size / BSIZE + 1) * BSIZE, then winode. */
  function RoundedSize(size: nat): nat {
    (size / BSIZE + 1) * BSIZE
  }

  function Rounded(v: View): View
    requires v.Shape() && v.ip.size < MAXFILE * BSIZE
  {
    RoundedFits(v.ip.size);
    Updated(v.(ip := v.ip.(size := RoundedSize(v.ip.size))))
  }

  lemma RoundedFits(size: nat)
    requires size < MAXFILE * BSIZE
    ensures size < RoundedSize(size) <= MAXFILE * BSIZE
    ensures RoundedSize(size) <= size + 512 && RoundedSize(size) % 512 == 0
    ensures BlocksFor(RoundedSize(size)) == BlocksFor(size) + if size % BSIZE == 0 then 1 else 0
  {
  }

  /**
   From a file without holes mkfs makes a sound file, current on the disk, that has a hole
   exactly when its size was a whole number of blocks; only then does reading all of it make
   bmap allocate.
   */
  lemma RoundingLeavesHole(v: View, own: map<nat, Owner>)
    requires FileOk(v, own) && Dense(v) && v.ip.size < MAXFILE * BSIZE
    ensures var w := Rounded(v);
            && v.ip.size < w.ip.size <= v.ip.size + 512 && w.ip.size % 512 == 0
            && FileOk(w, own) && Synced(w) && OthersKept(v, w) && Content(w, v.ip.size) == Content(v, v.ip.size)
            && Holes(v, w, 0, 0) && (Dense(w) <==> v.ip.size % BSIZE != 0)
            && (ReadCost(w, 0, w.ip.size) == 0 <==> v.ip.size % BSIZE != 0)
  {
    hide OthersKept, BytesKept, Synced, RoundedSize, Inv;
    InvShape(v, own);
    RoundedFits(v.ip.size);
    var w1 := v.(ip := v.ip.(size := RoundedSize(v.ip.size)));
    var w := Rounded(v);
    Resized(v, own, RoundedSize(v.ip.size));
    UpdatedInv(w1, own);
    OthersKeptTwice(v, w1, w);
    SameContent(v, w1, v.ip.size);
    SameContent(w1, w, v.ip.size);
    HolesSame(v, w1, w, 0, 0);
    RoundedHoles(v, w);
  }

  lemma RoundedHoles(v: View, w: View)
    requires v.Shape() && Dense(v) && v.ip.size < MAXFILE * BSIZE && Holes(v, w, 0, 0)
    requires w.ip.addrs == v.ip.addrs && w.ip.size == RoundedSize(v.ip.size) <= MAXFILE * BSIZE
    ensures Dense(w) <==> v.ip.size % BSIZE != 0
    ensures ReadCost(w, 0, w.ip.size) == 0 <==> v.ip.size % BSIZE != 0
  {
    var nb, nb2 := BlocksFor(v.ip.size), BlocksFor(w.ip.size);
    RoundedFits(v.ip.size);
    TopWithin(0, w.ip.size);
    assert TopBlock(0, w.ip.size) == nb2;
    CostsNothing(w, 0, nb2);
    forall bn: nat | bn < MAXFILE ensures DataBlock(w, bn) != 0 <==> bn < nb {
      assert HoleAt(v, w, 0, 0, bn) && FilledAt(v, nb, bn);
    }
    if nb2 == nb {
      forall bn: nat | bn < MAXFILE ensures FilledAt(w, nb2, bn) {
      }
    } else {
      assert DataBlock(w, nb) == 0 && !FilledAt(w, nb2, nb);
    }
  }

  // ---- An instance: a root directory of 32 entries ----

  /** The layout mkfs computes: 1000 blocks, a log of 30, 200 inodes in 26 blocks, one block of free map. */
  function MkfsSuper(): Super {
    Super(1000, 200, 32, 58, 59)
  }

  /** A block of the free map with the first n bits set. */
  function Marked(n: nat): (b: Block)
    requires n <= BPB
    ensures forall j | 0 <= j < BPB :: Bit(b, j) <==> j < n
  {
    if n == 0 then
      NoBits();
      Zeros()
    else
      SetBit(Marked(n - 1), n - 1)
  }

  lemma NoBits()
    ensures forall j | 0 <= j < BPB :: !Bit(Zeros(), j)
  {
    forall j | 0 <= j < BPB ensures !Bit(Zeros(), j) {
      ZeroBit(j % 8);
    }
  }

  lemma {:induction false} ZeroBit(k: nat)
    ensures !NatBit(0, k)
  {
    if k > 0 {
      ZeroBit(k - 1);
    }
  }

  /** The byte i of a map with the first n bits set: full bytes, then the low n % 8 bits, then zeros. */
  function MarkedByte(n: nat, i: nat): nat {
    if 8 * i + 8 <= n then 255 else if 8 * i < n then Exp2(n - 8 * i) - 1 else 0
  }

  lemma {:induction false} MarkedOnBytes(n: nat)
    requires n <= BPB
    ensures forall i: nat | i < BSIZE :: Marked(n)[i] == MarkedByte(n, i)
  {
    if n > 0 {
      hide Marked, SetBit, Bit;
      var k, x := n - 1, Marked(n - 1);
      MarkedOnBytes(k);
      MarkedStep(n);
      SetBitOnBytes(x, k);
      forall i: nat | i < BSIZE ensures Marked(n)[i] == MarkedByte(n, i) {
        assert x[i] == MarkedByte(k, i);
        MarkedNext(k, i);
      }
    }
  }

  lemma MarkedStep(n: nat)
    requires 0 < n <= BPB
    ensures Marked(n) == SetBit(Marked(n - 1), n - 1) && !Bit(Marked(n - 1), n - 1)
  {
  }

  lemma MarkedNone()
    ensures Marked(0) == Zeros()
  {
  }

  lemma MarkedNext(k: nat, i: nat)
    ensures MarkedByte(k + 1, i) == MarkedByte(k, i) + if i == k / 8 then Exp2(k % 8) else 0
  {
    if i == k / 8 {
      assert k - 8 * i == k % 8;
      assert Exp2(8) == 256 by {
        assert Exp2(4) == 16;
      }
    }
  }

  /** The loop of mkfs's balloc: one bit per used block. */
  method MarkUsed(used: nat) returns (buf: Block)
    requires used < BPB
    ensures buf == Marked(used) && forall i: nat | i < BSIZE :: buf[i] == MarkedByte(used, i)
  {
    hide Marked, SetBit, Bit;
    buf := Zeros();
    assert buf == Marked(0) by {
      MarkedNone();
    }
    for i := 0 to used
      invariant buf == Marked(i)
    {
      MarkedStep(i + 1);
      buf := SetBit(buf, i);
    }
    MarkedOnBytes(used);
  }

  /** The free map of mkfs, with its 59 metadata blocks: seven bytes 0xFF, a byte 0x07, then zeros. */
  lemma MkfsMapBytes()
    ensures var m := EmptyRoot().disk[58];
            && m[7] == 0x07 && (forall i | 0 <= i < 7 :: m[i] == 0xFF) && forall i | 8 <= i < BSIZE :: m[i] == 0
  {
    hide Marked;
    MarkedOnBytes(59);
    assert Exp2(3) == 8;
    var m := EmptyRoot().disk[58];
    assert m == Marked(59);
    forall i: nat | i < BSIZE ensures m[i] == MarkedByte(59, i) {
    }
  }

  function InitialBlock(x: nat): Block {
    if x == 58 then Marked(59) else Zeros()
  }

  function InitialDisk(n: nat): (d: Disk)
    ensures |d| == n && forall x | 0 <= x < n :: d[x] == InitialBlock(x)
  {
    if n == 0 then [] else InitialDisk(n - 1) + [InitialBlock(n - 1)]
  }

  /** The file system with its root directory still empty: inode 1, a directory with one link. */
  function EmptyRoot(): (v: View)
    ensures v.Shape()
  {
    View(MkfsSuper(), InitialDisk(1000), Inode(1, [1, 0x1_0000], 0, [0, 0, 0, 0, 0, 0, 0, 0, 0, 0, 0, 0, 0]), 0)
  }

  lemma EmptyRootSlot(i: nat, s: nat)
    requires i < 200 && s < SLOTS
    ensures SlotOf(EmptyRoot(), i, s) == 0
  {
    hide InitialDisk, Marked, GetWord, Zeros;
    var v := EmptyRoot();
    assert v.sb.IBlock(i) != 58 && v.disk[v.sb.IBlock(i)] == Zeros();
    assert AddrOf(v, i, NDIRECT) == 0;
  }

  lemma EmptyRootBit(b: nat)
    requires b < 1000
    ensures InUse(EmptyRoot(), b) <==> b < 59
  {
    hide InitialDisk, Marked, Bit, Zeros;
    var v := EmptyRoot();
    assert v.sb.BBlock(b) == 58 && v.disk[58] == Marked(59) && b % BPB == b;
  }

  lemma EmptyRootOk()
    ensures FileOk(EmptyRoot(), map[]) && Dense(EmptyRoot()) && Content(EmptyRoot(), 0) == [] && !InUse(EmptyRoot(), 59)
  {
    hide EmptyRoot, SlotOf, InUse;
    var v := EmptyRoot();
    EmptyRootShape();
    forall i: nat, s: nat | i < v.sb.ninodes && s < SLOTS ensures SlotOf(v, i, s) == 0 {
      EmptyRootSlot(i, s);
    }
    forall b: nat | b < v.sb.size ensures InUse(v, b) <==> b < v.sb.datastart {
      EmptyRootBit(b);
    }
    forall bn: nat | bn < MAXFILE ensures FilledAt(v, 0, bn) {
    }
  }

  lemma EmptyRootShape()
    ensures var v := EmptyRoot();
            v.sb == MkfsSuper() && v.ip.size == 0 && v.ip.inum == 1 && v.cut == 0
            && v.ip.addrs[0] == v.ip.addrs[NDIRECT] == 0
  {
  }

  /** The root directory with the 32 entries e, one block of them, before its size is rounded. */
  function RootEntries(e: Block): (v: View)
    ensures v.Shape() && v.ip.size == BSIZE
  {
    var u := EmptyRoot();
    var w := u.(disk := Allocated(u, 59)[59 := e], ip := u.ip.(size := BSIZE, addrs := u.ip.addrs[0 := 59]));
    Updated(w)
  }

  /** Its one block belongs to it. */
  ghost function RootOwners(): map<nat, Owner> {
    map[59 := Owner(1, 0)]
  }

  lemma RootEntriesOk(e: Block)
    ensures var v := RootEntries(e);
            && FileOk(v, RootOwners()) && Synced(v) && Dense(v) && v.sb == MkfsSuper() && v.ip.inum == 1
            && Content(v, BSIZE) == e
  {
    hide Inv, OthersKept, Grew, Spliced, Synced, EmptyRoot, SlotOf, InUse, Holes, Allocated, Dense, OnlyBlocks, InFs;
    var u := EmptyRoot();
    EmptyRootShape();
    EmptyRootOk();
    var w := DirectStep(u, map[], 0, 59);
    GrewThenWrote(u, w, RootOwners(), 0, e);
    var x := WriteData(w, 0, 0, e);
    HolesSame(u, w, x, 0, 1);
    WroteBeyond(u, x, RootOwners(), 0, e);
    assert Overwrite(w.disk[59], 0, e) == e;
    assert Allocated(u, 59)[59 := e] == w.disk[59 := e];
    assert Splice([], 0, e) == e;
  }

  /** The root directory as mkfs leaves it then. */
  function RootHole(e: Block): (v: View)
    ensures v.Shape() && v.sb == MkfsSuper() && v.ip.size == 2 * BSIZE
  {
    Rounded(RootEntries(e))
  }

  /** So mkfs writes file systems whose root directory has a hole: here its second block. */
  lemma MkfsRootHole(e: Block)
    ensures var w := RootHole(e);
            && FileOk(w, RootOwners()) && Synced(w) && w.ip.inum == 1
            && Content(w, BSIZE) == e && DataBlock(w, 0) != 0 && DataBlock(w, 1) == 0 && w.ip.addrs[1] == 0
            && ReadCost(w, BSIZE, 16) == 1
  {
    hide SlotOk, OwnerOk, BitOk, OthersKept, Synced, RootEntries;
    var v, w := RootEntries(e), RootHole(e);
    RootEntriesOk(e);
    RoundingLeavesHole(v, RootOwners());
    SecondBlock(v, w);
    OneCost(w, 1);
  }

  lemma SecondBlock(v: View, w: View)
    requires v.Shape() && Dense(v) && v.ip.size == BSIZE && Holes(v, w, 0, 0)
    ensures DataBlock(w, 0) != 0 && DataBlock(w, 1) == 0 && w.ip.addrs[1] == 0
  {
    var bn: nat := 1;
    assert FilledAt(v, 1, 0) && FilledAt(v, 1, bn) && HoleAt(v, w, 0, 0, 0) && HoleAt(v, w, 0, 0, bn);
  }

  /** What the read leaves: the same bytes, and the second block there, in memory. */
  lemma ReadNext(v: View, u: View)
    requires v.Shape() && v.ip.addrs[1] == 0 && v.ip.size == 2 * BSIZE && WasRead(v, u, BSIZE, 16)
    ensures u.Shape() && u.sb == v.sb && u.ip.size == 2 * BSIZE && Content(u, 2 * BSIZE) == Content(v, 2 * BSIZE)
    ensures !PointersThere(v, BSIZE / BSIZE, TopBlock(BSIZE, 16)) && ByteCost(u, BSIZE, 16) <= 2
    ensures forall k | BSIZE <= k < 2 * BSIZE :: Content(v, 2 * BSIZE)[k] == 0
  {
    SameContent(v, u, 2 * BSIZE);
    var bn: nat := 1;
    assert !PointerThere(v, bn);
    CostBound(u, 1, 2);
  }

  lemma EntryWritten(u: View, w: View, own: map<nat, Owner>, de: seq<Byte>)
    requires u.Shape() && u.ip.size == 2 * BSIZE && |de| == 16 && Wrote(u, w, own, BSIZE, de)
    ensures FileOk(w, own) && w.ip.size == 2 * BSIZE
    ensures Content(w, 2 * BSIZE) == Splice(Content(u, 2 * BSIZE), BSIZE, de)
  {
  }

  /**
   A new entry in that directory, as dirlink makes it: it reads the first entry of the second
   block, finds it free, and writes de there. In memory the directory has the entry. On the
   disk its inode has not changed: after a restart the second block is missing again, and the
   block that holds the entry is in use and nobody's.
   */
  method RootEntryForgotten(e: Block, de: seq<Byte>) returns (fs: Fs, data: seq<Byte>)
    requires |de| == 16
    ensures fresh(fs) && |data| == 16 && forall k | 0 <= k < 16 :: data[k] == 0
    ensures FileOk(fs.V(), fs.own) && fs.ip.size == 2 * BSIZE
    ensures Content(fs.V(), 2 * BSIZE) == Splice(Content(RootHole(e), 2 * BSIZE), BSIZE, de)
    ensures DiskInode(fs.V()) == RootHole(e).ip && RootHole(e).ip.addrs[1] == 0
    ensures forall own :: !Inv(fs.V().(ip := DiskInode(fs.V())), own)
  {
    hide Inv, WasRead, Wrote, RootHole, ByteCost, ReadCost, Content, Splice, DiskInode, OnlyBlocks, InFs, Synced;
    MkfsRootHole(e);
    var v := RootHole(e);
    fs := new Fs(v.sb, v.disk, v.ip, RootOwners());
    var ok, r;
    ghost var touched;
    ok, r, data, touched := fs.ReadI(BSIZE, 16, 1);
    ghost var u, own1 := fs.V(), fs.own;
    ReadNext(v, u);
    ok, r, touched := fs.WriteI(de, BSIZE);
    EntryWritten(u, fs.V(), fs.own, de);
    InvShape(fs.V(), fs.own);
    forall own ensures !Inv(fs.V().(ip := DiskInode(fs.V())), own) {
      ReadThenWriteForgotten(v, u, own1, BSIZE, 16, fs.V(), fs.own, BSIZE, de, own);
    }
    ReadThenWriteForgotten(v, u, own1, BSIZE, 16, fs.V(), fs.own, BSIZE, de, own1);
  }
}
