/**
 The on-disk layout of fs.h and who owns which block.

 A view holds the blocks as bread returns them, and one inode in memory. The in-memory
 inode may be ahead of its disk copy, so its block addresses are taken from memory.
 An inode has 141 block pointers ("slots"): 0..11 direct, 12 the indirect block, and
 13..140 the entries of the indirect block.
 */
module Inodes {
  import opened Blocks

  const IPB: nat := 8
  const NDIRECT: nat := 12
  const NINDIRECT: nat := 128
  const MAXFILE: nat := NDIRECT + NINDIRECT
  const SLOTS: nat := NDIRECT + 1 + NINDIRECT
  /** A dinode is 16 words: type and major, minor and nlink, size, 13 addresses. */
  const DWORDS: nat := 16

  /** datastart is the first block after the free map. */
  datatype Super = Super(size: nat, ninodes: nat, inodestart: nat, bmapstart: nat, datastart: nat) {
    predicate Ok() {
      && 1 <= inodestart && inodestart + ninodes / IPB < bmapstart
      && bmapstart + size / BPB < datastart <= size < 0x1_0000_0000
    }
    function IBlock(inum: nat): nat {
      inum / IPB + inodestart
    }
    function BBlock(b: nat): nat {
      b / BPB + bmapstart
    }
  }

  /** struct inode: the cached fields that have a disk copy; meta packs type, major, minor and nlink. */
  datatype Inode = Inode(inum: nat, meta: seq<Word>, size: Word, addrs: seq<Word>) {
    predicate Ok(sb: Super) {
      inum < sb.ninodes && |meta| == 2 && |addrs| == NDIRECT + 1
    }
    function Words(): seq<Word> {
      meta + [size] + addrs
    }
  }

  datatype Owner = Owner(inum: nat, slot: nat)

  /** cut: entries of the indirect block below cut count as cleared (used while itrunc runs). */
  datatype View = View(sb: Super, disk: Disk, ip: Inode, cut: nat) {
    predicate Shape() {
      sb.Ok() && |disk| == sb.size && ip.Ok(sb)
    }
  }

  function DiskWord(v: View, i: nat, w: nat): Word
    requires v.Shape() && i < v.sb.ninodes && w < DWORDS
  {
    GetWord(v.disk[v.sb.IBlock(i)], i % IPB * DWORDS + w)
  }

  function AddrOf(v: View, i: nat, k: nat): Word
    requires v.Shape() && i < v.sb.ninodes && k <= NDIRECT
  {
    if i == v.ip.inum then v.ip.addrs[k] else DiskWord(v, i, 3 + k)
  }

  /** Block pointer s of inode i; 0 means none. */
  function SlotOf(v: View, i: nat, s: nat): Word
    requires v.Shape() && i < v.sb.ninodes && s < SLOTS
  {
    if s <= NDIRECT then AddrOf(v, i, s)
    else
      var a := AddrOf(v, i, NDIRECT);
      if a == 0 || a >= |v.disk| || (i == v.ip.inum && s - 13 < v.cut) then 0 else GetWord(v.disk[a], s - 13)
  }

  predicate InUse(v: View, b: nat)
    requires v.Shape() && b < v.sb.size
  {
    Bit(v.disk[v.sb.BBlock(b)], b % BPB)
  }

  // ---- The ownership invariant ----

  ghost predicate SlotOk(v: View, own: map<nat, Owner>, i: nat, s: nat)
    requires v.Shape() && i < v.sb.ninodes && s < SLOTS
  {
    var b := SlotOf(v, i, s);
    b != 0 ==> v.sb.datastart <= b < v.sb.size && b in own && own[b] == Owner(i, s)
  }

  ghost predicate OwnerOk(v: View, own: map<nat, Owner>, b: nat)
    requires v.Shape() && b in own
  {
    own[b].inum < v.sb.ninodes && own[b].slot < SLOTS && b != 0 && SlotOf(v, own[b].inum, own[b].slot) == b
  }

  ghost predicate BitOk(v: View, own: map<nat, Owner>, b: nat)
    requires v.Shape() && b < v.sb.size
  {
    InUse(v, b) <==> b < v.sb.datastart || b in own
  }

  ghost predicate Inv(v: View, own: map<nat, Owner>) {
    && v.Shape()
    && (forall i: nat, s: nat | i < v.sb.ninodes && s < SLOTS :: SlotOk(v, own, i, s))
    && (forall b | b in own :: OwnerOk(v, own, b))
    && (forall b: nat | b < v.sb.size :: BitOk(v, own, b))
  }

  /** Block b is pointer s of inode i. */
  ghost predicate PointsTo(v: View, i: nat, s: nat, b: nat)
    requires v.Shape()
  {
    i < v.sb.ninodes && s < SLOTS && b != 0 && SlotOf(v, i, s) == b
  }

  /**
   What the invariant says about the free map: a bit is set exactly for metadata blocks and
   for blocks that some inode points to, and no data block has two pointers.
   */
  lemma BitmapMeaning(v: View, own: map<nat, Owner>, b: nat)
    requires Inv(v, own) && b < v.sb.size
    ensures InUse(v, b) <==> b < v.sb.datastart || exists i: nat, s: nat :: PointsTo(v, i, s, b)
    ensures forall i: nat, s: nat, i2: nat, s2: nat | PointsTo(v, i, s, b) && PointsTo(v, i2, s2, b) ::
              i == i2 && s == s2
  {
    assert BitOk(v, own, b);
    if b in own {
      assert OwnerOk(v, own, b);
      assert PointsTo(v, own[b].inum, own[b].slot, b);
    }
    forall i: nat, s: nat | PointsTo(v, i, s, b) ensures v.sb.datastart <= b && b in own && own[b] == Owner(i, s) {
      assert SlotOk(v, own, i, s);
    }
  }

  // ---- Allocation ----

  /** The blocks after balloc chose b: its bit set, its contents zero. */
  function Allocated(v: View, b: nat): (d: Disk)
    requires v.Shape() && b < v.sb.size
    ensures |d| == |v.disk|
  {
    var bb := v.sb.BBlock(b);
    v.disk[bb := SetBit(v.disk[bb], b % BPB)][b := Zeros()]
  }

  lemma LayoutApart(v: View, i: nat, b: nat, c: nat)
    requires v.Shape() && i < v.sb.ninodes && b < v.sb.size && v.sb.datastart <= c < v.sb.size
    ensures v.sb.IBlock(i) < v.sb.bmapstart <= v.sb.BBlock(b) < v.sb.datastart
    ensures v.sb.IBlock(i) < v.sb.datastart <= c
  {
    assert i / IPB <= v.sb.ninodes / IPB;
    assert b / BPB <= v.sb.size / BPB;
  }

  /** Setting bit b changes the allocation state of b only. */
  lemma AllocatedBits(v: View, b: nat, c: nat, w: View)
    requires v.Shape() && w.Shape() && w.sb == v.sb && b < v.sb.size && c < v.sb.size
    requires b >= v.sb.datastart && v.sb.ninodes > 0
    requires w.disk[v.sb.BBlock(c)] == Allocated(v, b)[v.sb.BBlock(c)]
    ensures InUse(w, c) <==> c == b || InUse(v, c)
  {
    LayoutApart(v, 0, c, b);
    LayoutApart(v, 0, b, b);
    if v.sb.BBlock(c) == v.sb.BBlock(b) {
      assert c % BPB == b % BPB ==> c == b;
    }
  }

  /** One pointer of the in-memory inode changes from nothing to b, and b becomes used. */
  ghost predicate Gains(v: View, w: View, s0: nat, b: nat)
    requires v.Shape()
  {
    && w.Shape() && w.sb == v.sb && w.ip.inum == v.ip.inum && w.cut == v.cut && s0 < SLOTS && b < v.sb.size
    && (forall c: nat | c < v.sb.size :: UseChange(v, w, b, true, c))
    && (forall i: nat, s: nat | i < v.sb.ninodes && s < SLOTS :: SlotChange(v, w, s0, b, i, s))
  }

  ghost predicate UseChange(v: View, w: View, b: nat, on: bool, c: nat)
    requires v.Shape() && w.Shape() && w.sb == v.sb && c < v.sb.size
  {
    InUse(w, c) <==> if c == b then on else InUse(v, c)
  }

  ghost predicate SlotChange(v: View, w: View, s0: nat, b: nat, i: nat, s: nat)
    requires v.Shape() && w.Shape() && w.sb == v.sb && i < v.sb.ninodes && s < SLOTS
  {
    SlotOf(w, i, s) == if i == v.ip.inum && s == s0 then b else SlotOf(v, i, s)
  }

  /** Giving a free block to an empty pointer keeps the invariant. */
  lemma GainInv(v: View, own: map<nat, Owner>, w: View, s0: nat, b: nat)
    requires Inv(v, own) && Gains(v, w, s0, b) && !InUse(v, b) && SlotOf(v, v.ip.inum, s0) == 0
    ensures b !in own && b >= v.sb.datastart && Inv(w, own[b := Owner(v.ip.inum, s0)])
  {
    var own2 := own[b := Owner(v.ip.inum, s0)];
    assert BitOk(v, own, b);
    assert b != 0;
    forall i: nat, s: nat | i < w.sb.ninodes && s < SLOTS ensures SlotOk(w, own2, i, s) {
      assert SlotChange(v, w, s0, b, i, s) && SlotOk(v, own, i, s);
    }
    forall c | c in own2 ensures OwnerOk(w, own2, c) {
      if c == b {
        assert SlotChange(v, w, s0, b, v.ip.inum, s0);
      } else {
        assert OwnerOk(v, own, c);
        assert SlotChange(v, w, s0, b, own[c].inum, own[c].slot);
      }
    }
    forall c: nat | c < w.sb.size ensures BitOk(w, own2, c) {
      assert UseChange(v, w, b, true, c) && BitOk(v, own, c);
    }
  }

  /** Taking block b away from pointer s0 and freeing it keeps the invariant. */
  lemma LoseInv(v: View, own: map<nat, Owner>, w: View, s0: nat, b: nat)
    requires Inv(v, own) && w.Shape() && w.sb == v.sb && w.ip.inum == v.ip.inum && s0 < SLOTS
    requires b != 0 && SlotOf(v, v.ip.inum, s0) == b && b < v.sb.size
    requires forall c: nat | c < v.sb.size :: UseChange(v, w, b, false, c)
    requires forall i: nat, s: nat | i < v.sb.ninodes && s < SLOTS :: SlotChange(v, w, s0, 0, i, s)
    ensures b in own && Inv(w, own - {b})
  {
    var own2 := own - {b};
    assert SlotOk(v, own, v.ip.inum, s0);
    forall i: nat, s: nat | i < w.sb.ninodes && s < SLOTS ensures SlotOk(w, own2, i, s) {
      assert SlotChange(v, w, s0, 0, i, s) && SlotOk(v, own, i, s);
    }
    forall c | c in own2 ensures OwnerOk(w, own2, c) {
      assert OwnerOk(v, own, c);
      assert SlotChange(v, w, s0, 0, own[c].inum, own[c].slot);
    }
    forall c: nat | c < w.sb.size ensures BitOk(w, own2, c) {
      assert UseChange(v, w, b, false, c) && BitOk(v, own, c);
    }
  }

  /** The indirect block of any inode is a data block other than a free one. */
  lemma IndirectApart(v: View, own: map<nat, Owner>, i: nat, b: nat)
    requires Inv(v, own) && i < v.sb.ninodes && b < v.sb.size && !InUse(v, b)
    requires AddrOf(v, i, NDIRECT) != 0
    ensures v.sb.datastart <= AddrOf(v, i, NDIRECT) < v.sb.size && AddrOf(v, i, NDIRECT) != b
  {
    assert SlotOk(v, own, i, NDIRECT) && BitOk(v, own, b);
  }

  /** bmap on a missing direct block, or on the missing indirect block itself. */
  function GrowAddr(v: View, s0: nat, b: nat): View
    requires v.Shape() && s0 <= NDIRECT && b < v.sb.size
  {
    v.(disk := Allocated(v, b), ip := v.ip.(addrs := v.ip.addrs[s0 := b]))
  }

  lemma GrowAddrGains(v: View, own: map<nat, Owner>, s0: nat, b: nat)
    requires Inv(v, own) && s0 <= NDIRECT && b < v.sb.size && !InUse(v, b) && v.ip.addrs[s0] == 0
    ensures Gains(v, GrowAddr(v, s0, b), s0, b)
  {
    var w := GrowAddr(v, s0, b);
    assert BitOk(v, own, b);
    forall c: nat | c < v.sb.size ensures UseChange(v, w, b, true, c) {
      AllocatedBits(v, b, c, w);
    }
    forall i: nat, s: nat | i < v.sb.ninodes && s < SLOTS ensures SlotChange(v, w, s0, b, i, s) {
      LayoutApart(v, i, b, b);
      if AddrOf(v, i, NDIRECT) != 0 {
        IndirectApart(v, own, i, b);
      }
    }
  }

  /** bmap on a missing entry of the indirect block. */
  function GrowEntry(v: View, s0: nat, b: nat): View
    requires v.Shape() && NDIRECT < s0 < SLOTS && b < v.sb.size && v.ip.addrs[NDIRECT] < v.sb.size
  {
    var a := v.ip.addrs[NDIRECT];
    v.(disk := Allocated(v, b)[a := PutWord(v.disk[a], s0 - 13, b)])
  }

  lemma GrowEntryGains(v: View, own: map<nat, Owner>, s0: nat, b: nat)
    requires Inv(v, own) && NDIRECT < s0 < SLOTS && b < v.sb.size && !InUse(v, b) && v.cut == 0
    requires v.ip.addrs[NDIRECT] != 0 && SlotOf(v, v.ip.inum, s0) == 0
    ensures v.sb.datastart <= v.ip.addrs[NDIRECT] < v.sb.size && Gains(v, GrowEntry(v, s0, b), s0, b)
  {
    IndirectApart(v, own, v.ip.inum, b);
    var w := GrowEntry(v, s0, b);
    var a := v.ip.addrs[NDIRECT];
    assert BitOk(v, own, b);
    forall c: nat | c < v.sb.size ensures UseChange(v, w, b, true, c) {
      LayoutApart(v, v.ip.inum, c, a);
      AllocatedBits(v, b, c, w);
    }
    forall i: nat, s: nat | i < v.sb.ninodes && s < SLOTS ensures SlotChange(v, w, s0, b, i, s) {
      LayoutApart(v, i, b, b);
      LayoutApart(v, i, b, a);
      if AddrOf(v, i, NDIRECT) != 0 {
        IndirectApart(v, own, i, b);
        SlotsDiffer(v, own, i, NDIRECT, v.ip.inum, NDIRECT);
      }
    }
  }

  /** Two pointers that hold the same block are the same pointer. */
  lemma SlotsDiffer(v: View, own: map<nat, Owner>, i: nat, s: nat, i2: nat, s2: nat)
    requires Inv(v, own) && i < v.sb.ninodes && s < SLOTS && i2 < v.sb.ninodes && s2 < SLOTS
    ensures SlotOf(v, i, s) != 0 && SlotOf(v, i, s) == SlotOf(v, i2, s2) ==> i == i2 && s == s2
  {
    assert SlotOk(v, own, i, s) && SlotOk(v, own, i2, s2);
  }
}
