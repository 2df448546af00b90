/**
 The block allocator and the inode code of fs.c, and filewrite of file.c.

 `disk` is what bread returns, which the log keeps as its view of the disk; changing an
 element of it stands for changing a buffer and calling log_write. `logged` collects the
 blocks that the current operation has passed to log_write. Where the source panics for
 want of a free block, `ok` is false; each contract says exactly when that is.
 */
module FileSys {
  import opened Blocks
  import opened Collections
  import opened Inodes
  import opened Contents
  import opened FileMap
  import opened Truncate
  import opened DiskBytes
  import opened WriteSteps
  import Recovery

  class Fs {
    const sb: Super
    var disk: Disk
    /** The inode that the caller has locked. */
    var ip: Inode
    ghost var own: map<nat, Owner>
    /** The blocks passed to log_write. */
    var logged: set<nat>

    constructor (sb: Super, disk: Disk, ip: Inode, ghost own: map<nat, Owner>)
      requires Inv(View(sb, disk, ip, 0), own)
      ensures this.sb == sb && this.disk == disk && this.ip == ip && this.own == own && logged == {}
    {
      this.sb, this.disk, this.ip, this.own, logged := sb, disk, ip, own, {};
    }

    ghost function V(): View
      reads this
    {
      View(sb, disk, ip, 0)
    }

    // ---- balloc and bmap ----

    /**
     balloc: the lowest free block, marked in use and zeroed. It panics exactly when every
     bit of the map is set.
     */
    method BAlloc() returns (ok: bool, b: nat)
      requires V().Shape()
      modifies this`disk, this`logged
      ensures ok <==> exists c: nat :: c < sb.size && !InUse(old(V()), c)
      ensures ok ==> b < sb.size && !InUse(old(V()), b) && forall c: nat | c < b :: InUse(old(V()), c)
      ensures ok ==> disk == Allocated(old(V()), b) && logged == old(logged) + {sb.BBlock(b), b}
      ensures ok ==> TookBlock(old(disk), disk, sb, b)
      ensures !ok ==> disk == old(disk) && logged == old(logged)
    {
      hide Allocated, InUse, TookBlock;
      var base := 0;
      ghost var q := 0;
      while base < sb.size
        invariant base == q * BPB
        invariant disk == old(disk) && logged == old(logged)
        invariant forall c: nat | c < base && c < sb.size :: InUse(V(), c)
      {
        var bi := FirstClear(base, q);
        if bi < BPB && base + bi < sb.size {
          AllocatedOnBytes(V(), base + bi);
          Mark(base, bi, q);
          return true, base + bi;
        }
        base := base + BPB;
        q := q + 1;
        Times(q, BPB);
      }
      return false, 0;
    }

    /** Mark the block in use, and clear it. */
    method Mark(base: nat, bi: nat, ghost q: nat)
      requires V().Shape() && base == q * BPB && bi < BPB && base + bi < sb.size
      modifies this`disk, this`logged
      ensures disk == Allocated(old(V()), base + bi) && logged == old(logged) + {sb.BBlock(base + bi), base + bi}
    {
      InMap(base, bi, q);
      var bp := disk[sb.BBlock(base)];
      disk := disk[sb.BBlock(base) := SetBit(bp, bi)];
      disk := disk[base + bi := Zeros()];
      logged := logged + {sb.BBlock(base), base + bi};
    }

    /** The inner loop of balloc: the first clear bit of one block of the map. */
    method FirstClear(base: nat, ghost q: nat) returns (bi: nat)
      requires V().Shape() && base == q * BPB && base < sb.size
      ensures bi <= BPB && (forall c: nat | base <= c < base + bi && c < sb.size :: InUse(V(), c))
      ensures bi < BPB ==> base + bi >= sb.size || !InUse(V(), base + bi)
    {
      var bp := disk[sb.BBlock(base)];
      bi := 0;
      while bi < BPB && base + bi < sb.size
        invariant 0 <= bi <= BPB
        invariant forall c: nat | base <= c < base + bi && c < sb.size :: InUse(V(), c)
      {
        InMap(base, bi, q);
        if !Bit(bp, bi) {
          return;
        }
        bi := bi + 1;
      }
    }

    /** A direct block is missing. */
    method BMapDirect(bn: nat) returns (ok: bool, addr: Word, ghost bm: set<nat>)
      requires Inv(V(), own) && bn < NDIRECT && ip.addrs[bn] == 0
      modifies this`disk, this`ip, this`own, this`logged
      ensures ok <==> |old(own)| < Capacity(sb)
      ensures ok ==> BMapped(old(V()), old(own), V(), own, old(logged), logged, bn, addr, bm, bm + {addr})
    {
      hide Inv, Grew, OnlyBlocks, InFs, Holes, BMapped, TookBlock;
      ghost var v, own0, l0 := V(), own, logged;
      InvShape(v, own);
      FreeExists(v, own);
      bm := {};
      var b;
      ok, b := BAlloc();
      addr := 0;
      if ok {
        addr := b;
        ghost var w := DirectStep(v, own, bn, b);
        ip := ip.(addrs := ip.addrs[bn := addr]);
        own := own[addr := Owner(ip.inum, bn)];
        bm := {sb.BBlock(addr)};
        assert V() == w && bm + {addr} == {sb.BBlock(b), b};
        MappedDirect(v, own0, w, own, l0, logged, bn, addr, bm);
      }
    }

    /** The indirect block is missing. */
    method BMapIndirect() returns (ok: bool, ghost bm: set<nat>)
      requires Inv(V(), own) && ip.addrs[NDIRECT] == 0
      modifies this`disk, this`ip, this`own, this`logged
      ensures |ip.addrs| == NDIRECT + 1 && (ok <==> |old(own)| < Capacity(sb))
      ensures ok ==> Inv(V(), own) && Grew(old(V()), V()) && Holes(old(V()), V(), 0, 0)
      ensures ok ==> ip.addrs[NDIRECT] != 0 && |own| == |old(own)| + 1
      ensures ok ==> |bm| <= 1 && logged == old(logged) + (bm + {ip.addrs[NDIRECT]})
      ensures ok ==> OnlyBlocks(old(V()), V(), bm + {ip.addrs[NDIRECT]}) && InFs(sb, bm + {ip.addrs[NDIRECT]})
    {
      hide Inv, Grew, OnlyBlocks, InFs, Holes, TookBlock;
      ghost var v := V();
      InvShape(v, own);
      FreeExists(v, own);
      bm := {};
      var addr: nat;
      ok, addr := BAlloc();
      if ok {
        ghost var w := IndirectStep(v, own, addr);
        ip := ip.(addrs := ip.addrs[NDIRECT := addr]);
        own := own[addr := Owner(ip.inum, NDIRECT)];
        bm := {sb.BBlock(addr)};
        assert V() == w && bm + {addr} == {sb.BBlock(addr), addr};
      }
    }

    /** An entry of the indirect block is missing. */
    method BMapEntry(bn: nat) returns (ok: bool, addr: Word, ghost bm: set<nat>)
      requires Inv(V(), own) && NDIRECT <= bn < MAXFILE && ip.addrs[NDIRECT] != 0 && DataBlock(V(), bn) == 0
      modifies this`disk, this`own, this`logged
      ensures ok <==> |old(own)| < Capacity(sb)
      ensures ok ==> Inv(V(), own) && Grew(old(V()), V()) && Holes(old(V()), V(), bn, bn + 1)
      ensures ok ==> addr == DataBlock(V(), bn) && addr != 0 && |own| == |old(own)| + 1
      ensures ok ==> |bm| <= 1 && logged == old(logged) + (bm + {addr, ip.addrs[NDIRECT]})
      ensures ok ==> OnlyBlocks(old(V()), V(), bm + {addr, ip.addrs[NDIRECT]})
      ensures ok ==> InFs(sb, bm + {addr, ip.addrs[NDIRECT]})
    {
      hide Grew, OnlyBlocks, InFs, Holes, OwnerOk, BitOk, TookBlock;
      ghost var v := V();
      FreeExists(v, own);
      bm := {};
      assert SlotOk(v, own, ip.inum, NDIRECT);
      var a := ip.addrs[NDIRECT];
      var ind := disk[a];
      var b;
      ok, b := BAlloc();
      addr := 0;
      if ok {
        addr := b;
        ghost var w := EntryStep(v, own, bn, b);
        ind := PutWord(ind, bn - NDIRECT, addr);
        disk := disk[a := ind];
        own := own[addr := Owner(ip.inum, bn + 1)];
        bm := {sb.BBlock(addr)};
        logged := logged + {a};
        assert V() == w && bm + {addr, a} == {sb.BBlock(b), b, a};
      }
    }

    /**
     bmap: the block of file block bn, allocated if it is missing, and the indirect block
     before it if that is missing too. It runs out of blocks exactly when fewer are free than
     that takes. No byte of the file changes: a hole becomes a block of zeros.
     */
    method BMap(bn: nat) returns (ok: bool, addr: Word, ghost bm: set<nat>, ghost x: set<nat>)
      requires Inv(V(), own) && bn < MAXFILE
      modifies this`disk, this`ip, this`own, this`logged
      ensures ok <==> |old(own)| + RangeCost(old(V()), bn, bn + 1) <= Capacity(sb)
      ensures ok ==> BMapped(old(V()), old(own), V(), own, old(logged), logged, bn, addr, bm, x)
    {
      hide Inv, Grew, OnlyBlocks, InFs, Holes, BMapped, RangeCost, DataBlock, Capacity;
      ghost var v := V();
      InvShape(v, own);
      UsedBound(v, own);
      OneCost(v, bn);
      FoundDirect(v, bn);
      ok, bm, x := true, {}, {};
      if bn < NDIRECT {
        addr := ip.addrs[bn];
        if addr == 0 {
          ok, addr, bm := BMapDirect(bn);
          x := bm + {addr};
        } else {
          MappedAlready(v, own, logged, bn);
        }
      } else {
        ok, addr, bm, x := BMapBehind(bn);
      }
    }

    /** The second half of bmap: the indirect block, then its entry. */
    method BMapBehind(bn: nat) returns (ok: bool, addr: Word, ghost bm: set<nat>, ghost x: set<nat>)
      requires Inv(V(), own) && NDIRECT <= bn < MAXFILE
      modifies this`disk, this`ip, this`own, this`logged
      ensures ok <==> |old(own)| + RangeCost(old(V()), bn, bn + 1) <= Capacity(sb)
      ensures ok ==> BMapped(old(V()), old(own), V(), own, old(logged), logged, bn, addr, bm, x)
    {
      hide Inv, Grew, OnlyBlocks, InFs, Holes, BMapped, RangeCost, Capacity;
      ghost var v, own0, l0 := V(), own, logged;
      InvShape(v, own);
      UsedBound(v, own);
      OneCost(v, bn);
      addr, bm, x := 0, {}, {};
      ghost var bm1, x1, bm2;
      ok, bm1, x1 := BMapPointer();
      if ok {
        ghost var u, own1, l1 := V(), own, logged;
        InvShape(u, own);
        UsedBound(u, own);
        SameHole(v, u, bn);
        EntryInside(u, own);
        addr := GetWord(disk[ip.addrs[NDIRECT]], bn - NDIRECT);
        if addr == 0 {
          ok, addr, bm2 := BMapEntry(bn);
          if ok {
            ghost var x2 := bm2 + {addr, ip.addrs[NDIRECT]};
            MappedBehind(v, own0, u, own1, V(), own, l0, l1, logged, bn, addr, bm1, x1, bm2, x2);
            bm, x := bm1 + bm2, x1 + x2;
          }
        } else {
          MappedAlready(v, own0, l0, bn);
        }
      }
    }

    /** The indirect block, allocated if it is missing. */
    method BMapPointer() returns (ok: bool, ghost bm: set<nat>, ghost x: set<nat>)
      requires Inv(V(), own)
      modifies this`disk, this`ip, this`own, this`logged
      ensures |ip.addrs| == NDIRECT + 1 && (ok <==> old(ip).addrs[NDIRECT] != 0 || |old(own)| < Capacity(sb))
      ensures old(ip).addrs[NDIRECT] != 0 ==> V() == old(V()) && own == old(own) && logged == old(logged) && bm == {}
      ensures old(ip).addrs[NDIRECT] != 0 ==> x == {}
      ensures ok && old(ip).addrs[NDIRECT] == 0 ==> |own| == |old(own)| + 1
      ensures ok ==> Inv(V(), own) && Grew(old(V()), V()) && Holes(old(V()), V(), 0, 0) && ip.addrs[NDIRECT] != 0
      ensures ok ==> |bm| <= 1 && logged == old(logged) + x && x <= bm + {ip.addrs[NDIRECT]}
      ensures ok ==> OnlyBlocks(old(V()), V(), x) && InFs(sb, x)
    {
      ok, bm, x := true, {}, {};
      GrewNothing(V(), own);
      hide Inv, Grew;
      if ip.addrs[NDIRECT] == 0 {
        ok, bm := BMapIndirect();
        if ok {
          x := bm + {ip.addrs[NDIRECT]};
        }
      }
    }

    // ---- writei ----

    /** One iteration of writei: the part s of the source that fits into the block at off. */
    method WriteStep(off: nat, s: seq<Byte>) returns (ok: bool, ghost bm: set<nat>, ghost addr: nat, ghost x: set<nat>)
      requires Inv(V(), own) && off % BSIZE + |s| <= BSIZE && off + |s| <= MAXFILE * BSIZE && off / BSIZE < MAXFILE
      modifies this`disk, this`ip, this`own, this`logged
      ensures ok <==> |old(own)| + RangeCost(old(V()), off / BSIZE, off / BSIZE + 1) <= Capacity(sb)
      ensures ok ==> Stepped(old(V()), old(own), V(), own, old(logged), logged, off, off / BSIZE, s, x, bm, addr)
    {
      hide Inv, BMapped, Stepped, RangeCost;
      ghost var u, own0, l0 := V(), own, logged;
      var a;
      ok, a, bm, x := BMap(off / BSIZE);
      addr := a;
      if ok {
        BlockWritten(u, own0, V(), own, l0, logged, off, off / BSIZE, off % BSIZE, s, addr, bm, x);
        disk := disk[a := Overwrite(disk[a], off % BSIZE, s)];
        logged := logged + {a};
        x := x + {addr};
      }
    }

    ghost predicate InWrite(v0: View, used0: nat, before: set<nat>, src: seq<Byte>, off: nat, tot: nat, cost: Cost)
      reads this
    {
      Writing(V(), own, logged, v0, used0, before, src, off, tot, cost)
    }

    /** One iteration of writei with its accounting. */
    method WriteOne(src: seq<Byte>, off: nat, tot: nat, ghost v0: View, ghost used0: nat, ghost before: set<nat>,
                    ghost cost: Cost)
      returns (ok: bool, m: nat, ghost cost2: Cost)
      requires v0.Shape() && InWrite(v0, used0, before, src, off, tot, cost) && tot < |src|
      modifies this`disk, this`ip, this`own, this`logged
      ensures 1 <= m && tot + m <= |src| && off + |src| <= MAXFILE * BSIZE
      ensures ok <==> used0 + ByteCost(v0, off, tot + m) <= Capacity(sb)
      ensures ok ==> InWrite(v0, used0, before, src, off, tot + m, cost2)
    {
      hide Inv, Spliced, Fills, CostOk, OnlyBlocks, InFs, RangeCost, ByteCost, PointersThere, Stepped;
      m := Fitting(off + tot, |src| - tot);
      ghost var v, own0, l0 := V(), own, logged;
      WritingCount(v, own, logged, v0, used0, before, src, off, tot, cost, m);
      ghost var bm, addr, x;
      cost2 := cost;
      ok, bm, addr, x := WriteStep(off + tot, src[tot..tot + m]);
      if ok {
        cost2 := WritingStep(v, own0, V(), own, l0, logged, v0, used0, before, src, off, tot, cost, m, x, bm, addr);
      }
    }

    /** The loop of writei. It runs out of blocks exactly when more are missing than are free. */
    method WriteLoop(src: seq<Byte>, off: nat) returns (ok: bool, ghost cost: Cost)
      requires Inv(V(), own) && off + |src| <= MAXFILE * BSIZE
      modifies this`disk, this`ip, this`own, this`logged
      ensures ok <==> |old(own)| + ByteCost(old(V()), off, |src|) <= Capacity(sb)
      ensures ok ==> Writing(V(), own, logged, old(V()), |old(own)|, old(logged), src, off, |src|, cost)
      ensures |src| == 0 ==> cost.all == {}
    {
      hide Inv, Writing, ByteCost;
      ghost var v0, used0, before := V(), |own|, logged;
      cost := Cost({}, {}, {}, {});
      InvShape(v0, own);
      WritingStart(v0, own, before, src, off);
      WritingUsed(v0, own, logged, v0, used0, before, src, off, 0, cost);
      var tot := 0;
      ok := true;
      while ok && tot < |src|
        invariant tot <= |src| && (tot == 0 ==> cost.all == {})
        invariant if ok then InWrite(v0, used0, before, src, off, tot, cost)
                  && used0 + ByteCost(v0, off, tot) <= Capacity(sb)
                  else used0 + ByteCost(v0, off, tot) > Capacity(sb)
        decreases ok, |src| - tot
      {
        var m;
        ok, m, cost := WriteOne(src, off, tot, v0, used0, before, cost);
        tot := tot + m;
      }
      if !ok {
        ByteCostMonotone(v0, off, tot, |src|);
      }
    }

    /** iupdate: the disk copy agrees with memory; no other inode's words and no other block change. */
    method IUpdate()
      requires V().Shape()
      modifies this`disk, this`logged
      ensures V() == Updated(old(V())) && logged == old(logged) + {sb.IBlock(ip.inum)}
      ensures Synced(V()) && OnlyBlocks(old(V()), V(), {sb.IBlock(ip.inum)})
      ensures sb.inodestart + ip.inum / 8 < |disk| && ip.inum % 8 * 64 + 64 <= 512
      ensures Dinode(disk[sb.inodestart + ip.inum / 8], ip.inum % 8 * 64, ip)
      ensures forall i: nat, k: nat | i < sb.ninodes && i != ip.inum && k < DWORDS :: WordKept(old(V()), V(), i, k)
    {
      ghost var v := V();
      var ib := sb.IBlock(ip.inum);
      disk := disk[ib := PutWords(disk[ib], ip.inum % IPB * DWORDS, ip.Words())];
      logged := logged + {ib};
      UpdatedCopy(v);
      SyncedOnBytes(V());
    }

    /**
     writei on a file (not a device), with or without holes. It refuses exactly what WriteFits
     rules out. Otherwise the file's bytes become the old bytes with the source spliced in,
     every other inode and its blocks stay as they were, and only `touched` changed: blocks of
     the file system, all of them logged, at most Budget. It runs out of blocks exactly when
     more of the range is missing than is free. WroteSynced says when the inode on the disk is
     current afterwards.
     */
    method WriteI(src: seq<Byte>, off: nat) returns (ok: bool, r: int, ghost touched: set<nat>)
      requires FileOk(V(), own) && off < UINT && |src| < UINT
      modifies this`disk, this`ip, this`own, this`logged
      ensures ok <==> !WriteFits(old(ip.size), off, |src|)
                      || |old(own)| + ByteCost(old(V()), off, |src|) <= Capacity(sb)
      ensures ok ==> (r == -1 <==> !WriteFits(old(ip.size), off, |src|))
      ensures ok ==> (r == -1 <==> off > old(ip.size) || off + |src| > 140 * 512)
      ensures ok && r == -1 ==> V() == old(V()) && own == old(own) && logged == old(logged) && touched == {}
      ensures ok && r == -1 ==> FileOk(V(), own) && OthersKept(old(V()), V())
      ensures ok && r != -1 ==> r == |src| && Wrote(old(V()), V(), own, off, src)
      ensures ok && r != -1 ==> |own| == |old(own)| + ByteCost(old(V()), off, |src|)
      ensures ok && r != -1 ==> |touched| <= Budget(old(V()), off, |src|)
      ensures ok ==> logged == old(logged) + touched && OnlyBlocks(old(V()), V(), touched) && InFs(sb, touched)
    {
      hide Inv, Wrote, OnlyBlocks, InFs, ByteCost, Budget, OthersKept, Sum;
      touched := {};
      InvShape(V(), own);
      if off > ip.size || Sum(off, |src|) < off || off + |src| > MAXFILE * BSIZE {
        Refusal(off, |src|);
        return true, -1, {};
      }
      ok, touched := WriteAll(src, off);
      r := |src|;
    }

    /** writei where it is not refused. */
    method WriteAll(src: seq<Byte>, off: nat) returns (ok: bool, ghost touched: set<nat>)
      requires FileOk(V(), own) && WriteFits(ip.size, off, |src|)
      modifies this`disk, this`ip, this`own, this`logged
      ensures ok <==> |old(own)| + ByteCost(old(V()), off, |src|) <= Capacity(sb)
      ensures ok ==> Wrote(old(V()), V(), own, off, src) && |own| == |old(own)| + ByteCost(old(V()), off, |src|)
      ensures ok ==> |touched| <= Budget(old(V()), off, |src|)
      ensures ok ==> logged == old(logged) + touched && OnlyBlocks(old(V()), V(), touched) && InFs(sb, touched)
    {
      hide Inv, Wrote, OnlyBlocks, InFs, Writing, ByteCost, Budget;
      ghost var v0, own0, before := V(), own, logged;
      InvShape(v0, own0);
      ghost var cost;
      ok, cost := WriteLoop(src, off);
      touched := {};
      if ok {
        touched := FinishWrite(src, off, v0, own0, before, cost);
      }
    }

    /** The end of writei. */
    method FinishWrite(src: seq<Byte>, off: nat, ghost v0: View, ghost own0: map<nat, Owner>, ghost before: set<nat>,
                       ghost cost: Cost)
      returns (ghost touched: set<nat>)
      requires FileOk(v0, own0) && off <= v0.ip.size && (|src| == 0 ==> cost.all == {})
      requires Writing(V(), own, logged, v0, |own0|, before, src, off, |src|, cost)
      modifies this`disk, this`ip, this`logged
      ensures Wrote(v0, V(), own, off, src) && own == old(own) && |own| == |own0| + ByteCost(v0, off, |src|)
      ensures logged == before + touched && |touched| <= Budget(v0, off, |src|) && OnlyBlocks(v0, V(), touched)
      ensures InFs(sb, touched)
    {
      hide Inv, Wrote, OnlyBlocks, InFs, Spliced, Fills, CostOk, PointersThere, RangeCost;
      ghost var v, l1 := V(), logged;
      WritingEnd(v, own, logged, v0, |own0|, before, src, off, cost);
      if |src| > 0 && off + |src| > ip.size {
        SizeUp(src, off, v0);
        touched := cost.all + {sb.IBlock(ip.inum)};
        TouchedBeyond(v0, v, V(), cost, before, l1, off, |src|);
      } else {
        WroteInside(v0, v, own, off, src);
        touched := cost.all;
        TouchedInside(v0, v, cost, before, logged, off, |src|);
      }
    }

    /** The file has grown: the new size, in memory and on disk. */
    method SizeUp(src: seq<Byte>, off: nat, ghost v0: View)
      requires v0.Shape() && Inv(V(), own) && off <= v0.ip.size == ip.size < off + |src|
      requires Spliced(v0, V(), off, src) && Fills(v0, V(), off / BSIZE, TopBlock(off, |src|))
      modifies this`disk, this`ip, this`logged
      ensures Wrote(v0, V(), own, off, src) && ip == old(ip).(size := off + |src|)
      ensures OnlyBlocks(old(V()), V(), {sb.IBlock(ip.inum)}) && logged == old(logged) + {sb.IBlock(ip.inum)}
    {
      hide Inv, Wrote, Spliced, Fills, Synced, WordKept, Dinode;
      InvShape(V(), own);
      SplicedLimit(v0, V(), off, src);
      WroteBeyond(v0, V(), own, off, src);
      ip := ip.(size := off + |src|);
      IUpdate();
    }

    lemma Refusal(off: nat, n: nat)
      requires FileOk(V(), own) && off < UINT && n < UINT
      requires off > ip.size || Sum(off, n) < off || off + n > MAXFILE * BSIZE
      ensures !WriteFits(ip.size, off, n) && OthersKept(V(), V()) && OnlyBlocks(V(), V(), {}) && InFs(sb, {})
    {
      Wraps(off, n);
      PrivateChange(V(), own, V(), {});
    }

    // ---- readi ----

    /** The part of bmap that finds a block that is there. */
    method Locate(bn: nat) returns (there: bool, addr: Word)
      requires Inv(V(), own) && bn < MAXFILE
      ensures there <==> DataBlock(V(), bn) != 0
      ensures there ==> addr == DataBlock(V(), bn) && addr < |disk|
    {
      assert SlotOk(V(), own, ip.inum, DataSlot(bn)) && SlotOk(V(), own, ip.inum, NDIRECT);
      addr := ip.addrs[if bn < NDIRECT then bn else NDIRECT];
      if addr != 0 && bn >= NDIRECT {
        addr := GetWord(disk[addr], bn - NDIRECT);
      }
      there := addr != 0;
    }

    /**
     bmap as readi calls it. Where the block is missing, balloc calls log_write, which panics
     unless some operation is outstanding anywhere in the system.
     */
    method BMapRead(bn: nat, outstanding: nat) returns (ok: bool, addr: Word, ghost bm: set<nat>, ghost x: set<nat>)
      requires Inv(V(), own) && bn < MAXFILE
      modifies this`disk, this`ip, this`own, this`logged
      ensures var cost := RangeCost(old(V()), bn, bn + 1);
              ok <==> cost == 0 || (outstanding >= 1 && |old(own)| + cost <= Capacity(sb))
      ensures ok ==> BMapped(old(V()), old(own), V(), own, old(logged), logged, bn, addr, bm, x)
    {
      hide BMapped, SlotOk, OwnerOk, BitOk, RangeCost;
      OneCost(V(), bn);
      bm, x := {}, {};
      ok, addr := Locate(bn);
      if ok {
        MappedAlready(V(), own, logged, bn);
      } else if outstanding >= 1 {
        ok, addr, bm, x := BMap(bn);
      }
    }

    /** One iteration of readi: m bytes from pos, in file block b. */
    method ReadStep(pos: nat, m: nat, outstanding: nat, ghost v0: View, ghost own0: map<nat, Owner>,
                    ghost before: set<nat>, ghost a: nat, b: nat, ghost t: set<nat>)
      returns (ok: bool, s: seq<Byte>, ghost t2: set<nat>)
      requires Reading(V(), own, logged, v0, own0, before, a, b, t) && v0.Shape() && b == pos / BSIZE < MAXFILE
      requires pos + m <= MAXFILE * BSIZE && pos % BSIZE + m <= BSIZE
      modifies this`disk, this`ip, this`own, this`logged
      ensures ok <==> RangeCost(v0, a, b + 1) == RangeCost(v0, a, b)
                      || (outstanding >= 1 && |own0| + RangeCost(v0, a, b + 1) <= Capacity(sb))
      ensures ok ==> Reading(V(), own, logged, v0, own0, before, a, b + 1, t2)
      ensures ok ==> |s| == m && forall k | 0 <= k < m :: s[k] == ByteAt(v0, pos + k)
    {
      hide Inv, Reading, BMapped, RangeCost;
      ghost var v, own1, l1 := V(), own, logged;
      ReadingCount(v, own, logged, v0, own0, before, a, b, t);
      s, t2 := [], t;
      var addr;
      ghost var bm, x;
      ok, addr, bm, x := BMapRead(b, outstanding);
      if ok {
        t2 := t + x;
        ReadingStep(v, own1, V(), own, l1, logged, v0, own0, before, a, b, t, addr, bm, x);
        ReadBytes(v, own1, V(), own, l1, logged, v0, addr, bm, x, pos, b, m);
        s := disk[addr][pos % BSIZE..pos % BSIZE + m];
      }
    }

    /**
     readi on a file. `outstanding` counts the operations in progress anywhere, which for
     fileread are those of other processes. -1 exactly for a start beyond the end or a wrapping
     range. Otherwise the bytes of the file from off, cut off at its end, with zeros for holes.
     bmap fills the holes of the range as it goes: without an outstanding operation log_write
     panics on the first one; with one, blocks run out exactly when more are missing than are
     free. The filled blocks are logged on that operation's account, and the inode's new
     pointers stay in memory: its record on the disk is untouched (ReadSynced).
     */
    method ReadI(off: nat, n: nat, outstanding: nat)
      returns (ok: bool, r: int, data: seq<Byte>, ghost touched: set<nat>)
      requires FileOk(V(), own) && off < UINT && n < UINT
      modifies this`disk, this`ip, this`own, this`logged
      ensures r == -1 <==> off > old(ip.size) || off + n >= UINT
      ensures ok <==> r == -1 || ReadCost(old(V()), off, n) == 0
                      || (outstanding >= 1 && |old(own)| + ReadCost(old(V()), off, n) <= Capacity(sb))
      ensures ok && r != -1 ==> r == |data| && WasRead(old(V()), V(), off, |data|)
      ensures r != -1 ==> r <= n && off + r <= old(ip.size) && (r < n ==> off + r == old(ip.size))
      ensures ok && r != -1 ==> data == Content(old(V()), old(ip.size))[off..ReadEnd(old(ip.size), off, n)]
      ensures ok && r != -1 ==> |own| == |old(own)| + ReadCost(old(V()), off, n)
      ensures ok ==> FileOk(V(), own)
      ensures ok ==> logged == old(logged) + touched && OnlyBlocks(old(V()), V(), touched) && InFs(sb, touched)
      ensures ok && (r == -1 || ReadCost(old(V()), off, n) == 0) ==> V() == old(V()) && own == old(own) && touched == {}
    {
      hide Inv, WasRead, OnlyBlocks, InFs, ByteAt, ByteCost, Content, Sum, ReadCost, ReadEnd, Capacity;
      ghost var v0 := V();
      InvShape(v0, own);
      NothingTouched(v0, logged);
      data, touched := [], {};
      ok, r := true, -1;
      Wraps(off, n);
      if off > ip.size || Sum(off, n) < off {
        return;
      }
      r := if off + n > ip.size then ip.size - off else n;
      ReadUpTo(v0, off, n, r);
      ok, data, touched := ReadLoop(off, r, outstanding);
      if ok {
        ReadSlice(v0, off, r, data);
      }
    }

    /** The loop of readi. */
    method ReadLoop(off: nat, r: nat, outstanding: nat) returns (ok: bool, data: seq<Byte>, ghost touched: set<nat>)
      requires FileOk(V(), own) && off + r <= ip.size
      modifies this`disk, this`ip, this`own, this`logged
      ensures ok <==> Readable(sb, old(own), outstanding, ByteCost(old(V()), off, r))
      ensures ok ==> |data| == r && forall k | 0 <= k < r :: data[k] == ByteAt(old(V()), off + k)
      ensures ok ==> |own| == |old(own)| + ByteCost(old(V()), off, r) && FileOk(V(), own)
      ensures ok ==> WasRead(old(V()), V(), off, r)
      ensures ok ==> logged == old(logged) + touched && OnlyBlocks(old(V()), V(), touched) && InFs(sb, touched)
      ensures ok && ByteCost(old(V()), off, r) == 0 ==> V() == old(V()) && own == old(own) && touched == {}
    {
      hide Inv, Reading, WasRead, OnlyBlocks, InFs, ByteAt, ByteCost, RangeCost, TopBlock, Readable;
      ghost var v0, own0, before := V(), own, logged;
      InvShape(v0, own);
      ghost var a := off / BSIZE;
      ReadingStart(v0, own, before, a);
      ReadNothing(v0, own0, outstanding, off);
      ok, data, touched := true, [], {};
      while ok && |data| < r
        invariant |data| <= r && off + r <= MAXFILE * BSIZE && (0 < |data| < r ==> (off + |data|) % BSIZE == 0)
        invariant ok ==> Reading(V(), own, logged, v0, own0, before, a, TopBlock(off, |data|), touched)
        invariant ok ==> forall k | 0 <= k < |data| :: data[k] == ByteAt(v0, off + k)
        invariant ok ==> Readable(sb, own0, outstanding, ByteCost(v0, off, |data|))
        invariant !ok ==> !Readable(sb, own0, outstanding, ByteCost(v0, off, r))
        decreases ok, r - |data|
      {
        var tot := |data|;
        var m := Fitting(off + tot, r - tot);
        ReadFurther(v0, own0, outstanding, off, tot, m, r);
        var part;
        ghost var t2;
        ok, part, t2 := ReadStep(off + tot, m, outstanding, v0, own0, before, a, (off + tot) / BSIZE, touched);
        if ok {
          data := data + part;
          touched := t2;
        }
      }
      if ok {
        ReadingDone(V(), own, logged, v0, own0, before, off, r, touched);
      }
    }

    // ---- bfree and itrunc ----

    /** bfree; the caller must own a block that is in use, or the source panics. Exactly that block becomes free. */
    method BFree(b: nat)
      requires V().Shape() && b < sb.size && InUse(V(), b)
      modifies this`disk, this`logged
      ensures disk == Released(old(V()), b) && logged == old(logged) + {sb.BBlock(b)}
      ensures V().Shape() && OnlyBlocks(old(V()), V(), {sb.BBlock(b)}) && sb.bmapstart <= sb.BBlock(b) < sb.datastart
      ensures forall c: nat | c < sb.size :: InUse(V(), c) <==> c != b && InUse(old(V()), c)
      ensures GaveBlock(old(disk), disk, sb, b)
    {
      hide GaveBlock;
      ghost var v := V();
      ReleasedOnBytes(v, b);
      var bb := sb.BBlock(b);
      disk := disk[bb := ClearBit(disk[bb], b % BPB)];
      logged := logged + {bb};
      LayoutBitmap(v, b);
      forall c: nat | c < sb.size ensures InUse(V(), c) <==> c != b && InUse(v, c) {
        ReleasedUse(v, b, c, V());
      }
    }

    /** The first loop of itrunc. */
    method TruncDirect(ghost v0: View, ghost own0: map<nat, Owner>, ghost l0: set<nat>) returns (ghost t: set<nat>)
      requires v0 == V() && own0 == own && Inv(V(), own) && l0 == logged
      modifies this`disk, this`ip, this`own, this`logged
      ensures Truncating(v0, own0, l0, t, 0)
      ensures ip == old(ip).(addrs := ip.addrs) && forall k: nat | k < NDIRECT :: ip.addrs[k] == 0
    {
      hide SlotOk, OwnerOk, BitOk, OthersKept;
      PrivateChange(v0, own0, v0, {});
      t := {};
      var i := 0;
      while i < NDIRECT
        invariant 0 <= i <= NDIRECT
        invariant Truncating(v0, own0, l0, t, 0)
        invariant ip == old(ip).(addrs := ip.addrs) && forall k: nat | k < i :: ip.addrs[k] == 0
      {
        if ip.addrs[i] != 0 {
          t := DropPointer(i, v0, own0, l0, t);
        }
        i := i + 1;
      }
    }

    /** bfree of a direct block. */
    method DropPointer(i: nat, ghost v0: View, ghost own0: map<nat, Owner>, ghost l0: set<nat>, ghost t0: set<nat>)
      returns (ghost t: set<nat>)
      requires Truncating(v0, own0, l0, t0, 0) && i < NDIRECT && ip.addrs[i] != 0
      modifies this`disk, this`ip, this`own, this`logged
      ensures Truncating(v0, own0, l0, t, 0) && ip == old(ip).(addrs := old(ip).addrs[i := 0])
    {
      hide SlotOk, OwnerOk, BitOk, OthersKept, GaveBlock;
      ghost var v, l1, b := V(), logged, ip.addrs[i];
      DropDirectStep(v, own, i);
      LoseOne(own0, own, ip.inum, ip.addrs[i]);
      OthersKeptTwice(v0, v, DropDirect(v, i));
      BFree(ip.addrs[i]);
      own := own - {ip.addrs[i]};
      ip := ip.(addrs := ip.addrs[i := 0]);
      assert V() == DropDirect(v, i);
      t := t0 + {sb.BBlock(b)};
      GaveBackMore(v0, v, V(), l0, l1, t0, sb.BBlock(b));
    }

    /**
     What itrunc has kept so far, with j entries of the indirect block dealt with; only the map
     blocks t have changed.
     */
    ghost predicate Truncating(v0: View, own0: map<nat, Owner>, l0: set<nat>, t: set<nat>, j: nat)
      reads this
    {
      && Inv(View(sb, disk, ip, j), own) && OthersKept(v0, View(sb, disk, ip, j)) && OnlyLost(own0, own, ip.inum)
      && GaveBack(v0, V(), l0, logged, t)
    }

    /** One iteration of the loop over the indirect block's entries. */
    method TruncEntry(j: nat, bp: Block, ghost v0: View, ghost own0: map<nat, Owner>, ghost l0: set<nat>,
                      ghost t0: set<nat>)
      returns (ghost t: set<nat>)
      requires Truncating(v0, own0, l0, t0, j) && j < NINDIRECT && 0 != ip.addrs[NDIRECT] < |disk|
      requires bp == disk[ip.addrs[NDIRECT]]
      modifies this`disk, this`own, this`logged
      ensures Truncating(v0, own0, l0, t, j + 1) && |disk| == |old(disk)| && bp == disk[ip.addrs[NDIRECT]]
    {
      hide Inv, OthersKept, OnlyLost, GaveBack, GaveBlock;
      ghost var v, u, l1 := View(sb, disk, ip, j), V(), logged;
      InvShape(v, own);
      DropEntryStep(v, own);
      OthersKeptTwice(v0, v, DropEntry(v));
      EntryLost(v, own, own0);
      ghost var own2 := Without(v, own, 13 + j);
      var b := GetWord(bp, j);
      t := t0;
      if b != 0 {
        BFree(b);
        t := t0 + {sb.BBlock(b)};
        GaveBackMore(v0, u, V(), l0, l1, t0, sb.BBlock(b));
      }
      own := own2;
      assert View(sb, disk, ip, j + 1) == DropEntry(v);
    }

    /** bfree of the indirect block. */
    method TruncLast(ghost v0: View, ghost own0: map<nat, Owner>, ghost l0: set<nat>, ghost t0: set<nat>)
      returns (ghost t: set<nat>)
      requires Truncating(v0, own0, l0, t0, NINDIRECT) && ip.addrs[NDIRECT] != 0
      modifies this`disk, this`ip, this`own, this`logged
      ensures Truncating(v0, own0, l0, t, 0) && ip == old(ip).(addrs := old(ip).addrs[NDIRECT := 0])
    {
      hide SlotOk, OwnerOk, BitOk, OthersKept, GaveBlock;
      ghost var v, l1 := View(sb, disk, ip, NINDIRECT), logged;
      var a := ip.addrs[NDIRECT];
      DropIndirectStep(v, own);
      OthersKeptTwice(v0, v, DropIndirect(v));
      LoseOne(own0, own, ip.inum, a);
      BFree(a);
      ip := ip.(addrs := ip.addrs[NDIRECT := 0]);
      own := own - {a};
      assert V() == DropIndirect(v);
      t := t0 + {sb.BBlock(a)};
      GaveBackMore(v0, v, V(), l0, l1, t0, sb.BBlock(a));
    }

    /** The second half of itrunc: every block behind the indirect block, then that block. */
    method TruncIndirect(ghost v0: View, ghost own0: map<nat, Owner>, ghost l0: set<nat>, ghost t0: set<nat>)
      returns (ghost t: set<nat>)
      requires Truncating(v0, own0, l0, t0, 0) && ip.addrs[NDIRECT] != 0
      modifies this`disk, this`ip, this`own, this`logged
      ensures Truncating(v0, own0, l0, t, 0) && ip == old(ip).(addrs := old(ip).addrs[NDIRECT := 0])
    {
      hide OthersKept, OnlyLost, GaveBack;
      assert SlotOk(V(), own, ip.inum, NDIRECT);
      t := t0;
      var bp := disk[ip.addrs[NDIRECT]];
      var j := 0;
      while j < NINDIRECT
        invariant 0 <= j <= NINDIRECT && ip == old(ip) && ip.addrs[NDIRECT] < |disk|
        invariant Truncating(v0, own0, l0, t, j) && bp == disk[ip.addrs[NDIRECT]]
      {
        t := TruncEntry(j, bp, v0, own0, l0, t);
        j := j + 1;
      }
      t := TruncLast(v0, own0, l0, t);
    }

    /**
     itrunc: the file becomes empty, exactly its blocks are given back, and no other inode
     notices. bfree is only ever called on a block that is in use. Only `touched` changed:
     blocks of the free map and the block of the inode, all of them logged.
     */
    method ITrunc() returns (ghost touched: set<nat>)
      requires Inv(V(), own)
      modifies this`disk, this`ip, this`own, this`logged
      ensures FileOk(V(), own) && ip.size == 0 && ip.inum == old(ip.inum) && OthersKept(old(V()), V())
      ensures Synced(V()) && Dense(V())
      ensures forall b :: b in own <==> b in old(own) && old(own)[b].inum != ip.inum
      ensures logged == old(logged) + touched && OnlyBlocks(old(V()), V(), touched)
      ensures forall x | x in touched :: sb.bmapstart <= x < sb.datastart || x == sb.IBlock(ip.inum)
      ensures InFs(sb, touched) && |touched| <= sb.datastart - sb.bmapstart + 1
    {
      hide SlotOk, OwnerOk, BitOk, OthersKept;
      ghost var v0, own0, l0 := V(), own, logged;
      touched := TruncDirect(v0, own0, l0);
      if ip.addrs[NDIRECT] != 0 {
        touched := TruncIndirect(v0, own0, l0, touched);
      }
      NothingLeft(V(), own, own0);
      touched := FinishTrunc(v0, own0, l0, touched);
    }

    method FinishTrunc(ghost v0: View, ghost own0: map<nat, Owner>, ghost l0: set<nat>, ghost t: set<nat>)
      returns (ghost touched: set<nat>)
      requires Inv(v0, own0) && Truncating(v0, own0, l0, t, 0) && forall k: nat | k <= NDIRECT :: ip.addrs[k] == 0
      modifies this`disk, this`ip, this`logged
      ensures FileOk(V(), own) && ip.size == 0 && ip.inum == old(ip.inum) && OthersKept(v0, V())
      ensures Synced(V()) && Dense(V())
      ensures logged == l0 + touched && OnlyBlocks(v0, V(), touched) && InFs(sb, touched)
      ensures |touched| <= sb.datastart - sb.bmapstart + 1
      ensures forall x | x in touched :: sb.bmapstart <= x < sb.datastart || x == sb.IBlock(ip.inum)
    {
      hide Inv, FileOk, OthersKept, OnlyLost, GaveBack, Updated, Synced, Dense;
      ghost var v, l1 := V(), logged;
      InvShape(v, own);
      EmptyFile(v0, V(), own);
      Settle(0, own, v0);
      touched := t + {sb.IBlock(ip.inum)};
      GaveBackAll(v0, v, V(), l0, l1, t);
    }

    /** The new size in memory, and the inode on disk. */
    method Settle(size: Word, ghost own1: map<nat, Owner>, ghost v0: View)
      requires V().Shape() && own == own1
      requires var w := Updated(V().(ip := ip.(size := size))); FileOk(w, own1) && OthersKept(v0, w) && Dense(w)
      modifies this`disk, this`ip, this`logged
      ensures V() == old(Updated(V().(ip := ip.(size := size)))) && logged == old(logged) + {sb.IBlock(ip.inum)}
      ensures FileOk(V(), own) && OthersKept(v0, V()) && Synced(V()) && Dense(V())
      ensures OnlyBlocks(old(V()), V(), {sb.IBlock(ip.inum)}) && ip == old(ip).(size := size)
    {
      ip := ip.(size := size);
      IUpdate();
    }

    // ---- filewrite ----

    /**
     One transaction of filewrite: begin_op; writei; end_op. It changes only logged blocks, at
     most MAXOPBLOCKS of them unless it starts inside a hole.
     */
    method WriteChunk(s: seq<Byte>, off: nat) returns (ok: bool, r: int)
      requires FileOk(V(), own) && off < UINT && |s| <= CHUNK
      modifies this`disk, this`ip, this`own, this`logged
      ensures ok <==> !WriteFits(old(ip.size), off, |s|) || |old(own)| + ByteCost(old(V()), off, |s|) <= Capacity(sb)
      ensures ok ==> (r == -1 <==> !WriteFits(old(ip.size), off, |s|))
      ensures ok && r == -1 ==> V() == old(V()) && own == old(own)
      ensures ok ==> FileOk(V(), own) && OthersKept(old(V()), V()) && OnlyBlocks(old(V()), V(), logged)
      ensures ok ==> InFs(sb, logged)
      ensures ok && r != -1 ==> r == |s| && Wrote(old(V()), V(), own, off, s)
      ensures ok && r != -1 ==> |own| == |old(own)| + ByteCost(old(V()), off, |s|)
      ensures ok ==> |logged| <= Recovery.MAXOPBLOCKS + 1
      ensures ok && (off % BSIZE == 0 || off / BSIZE >= MAXFILE || DataBlock(old(V()), off / BSIZE) != 0) ==>
                |logged| <= Recovery.MAXOPBLOCKS
      ensures ok && Dense(old(V())) ==> |logged| <= Recovery.MAXOPBLOCKS
    {
      hide Inv, Wrote, OthersKept, OnlyBlocks, InFs, ByteCost, DataBlock, Dense;
      ghost var v0 := V();
      InvShape(v0, own);
      logged := {};
      ghost var touched;
      ok, r, touched := WriteI(s, off);
      if ok {
        assert logged == touched;
        if r != -1 {
          WroteFile(v0, V(), own, off, s);
          ChunkFitsReservation(v0, off, |s|);
        }
      }
    }

    /** Where filewrite stands after i bytes, with the snapshots so far. */
    ghost predicate InFile(snaps: seq<Snap>, v0: View, used0: nat, off: nat, addr: seq<Byte>, n: int, i: nat)
      reads this
    {
      && Appending(V(), own, v0, used0, off, addr, i) && Snapshots(snaps, v0, used0, off, addr, n)
      && snaps[|snaps| - 1].v == V() && snaps[|snaps| - 1].own == own && snaps[|snaps| - 1].i == i
    }

    lemma InFileCost(snaps: seq<Snap>, v0: View, used0: nat, off: nat, addr: seq<Byte>, n: int, i: nat)
      requires InFile(snaps, v0, used0, off, addr, n, i) && v0.Shape() && v0.ip.size <= MAXFILE * BSIZE
      ensures if off <= v0.ip.size then ip.size == Max(v0.ip.size, off + i) else i == 0 && ip.size == v0.ip.size
      ensures i == Written(v0.ip.size, off, n) ==> used0 + FileCost(v0, off, n) <= Capacity(sb)
    {
      hide Appending, Snapshots, ByteCost;
      AppendingAt(V(), own, v0, used0, off, addr, i);
    }

    /** One iteration of filewrite. */
    method AppendChunk(addr: seq<Byte>, off: nat, i: nat, n1: nat, ghost n: int, ghost v0: View, ghost used0: nat,
                       ghost snaps: seq<Snap>)
      returns (ok: bool, r: int, ghost snaps2: seq<Snap>)
      requires InFile(snaps, v0, used0, off, addr, n, i) && 1 <= n1 <= CHUNK && i + n1 <= |addr| && off + i < UINT
      requires i + n1 == ChunkEnd(n, |snaps|)
      modifies this`disk, this`ip, this`own, this`logged
      ensures v0.Shape() && (ok ==> |snaps2| == |snaps| + if r == -1 then 0 else 1)
      ensures WriteFits(old(ip.size), off + i, n1) ==> off + i + n1 <= MAXFILE * BSIZE
      ensures ok <==> !WriteFits(old(ip.size), off + i, n1) || used0 + ByteCost(v0, off, i + n1) <= Capacity(sb)
      ensures ok ==> (r == -1 <==> !WriteFits(old(ip.size), off + i, n1)) && (r == -1 || r == n1)
      ensures ok ==> InFile(snaps2, v0, used0, off, addr, n, if r == -1 then i else i + n1)
    {
      hide Inv, Wrote, OthersKept, OnlyBlocks, InFs, ByteCost, Snapshots;
      ghost var v, own1 := V(), own;
      AppendingAt(v, own, v0, used0, off, addr, i);
      snaps2 := snaps;
      ok, r := WriteChunk(addr[i..i + n1], off + i);
      if WriteFits(v.ip.size, off + i, n1) {
        FitsFromStart(v0.ip.size, v.ip.size, off, i, n1);
        AppendedMore(v0, v, own1, off, addr[..i], n1);
      }
      if ok && r != -1 {
        AppendingStep(v, own1, V(), own, v0, used0, off, addr, i, n1);
        snaps2 := SnapshotsMore(snaps, Snap(V(), own, logged, i + n1), v0, used0, off, addr, n);
      }
    }

    /**
     filewrite on an inode: chunk after chunk, each in a transaction of its own. It returns n
     exactly when the whole range fits the file; otherwise -1, with the whole chunks below the
     size limit written and the offset behind them. It runs out of blocks exactly when more of
     what it has to write is missing than is free. `snaps` are the files between the chunks and
     the blocks that each one logged.
     */
    method FileWrite(addr: seq<Byte>, n: int, off: nat) returns (ok: bool, r: int, off2: nat, ghost snaps: seq<Snap>)
      requires FileOk(V(), own) && off < UINT && n < 0x8000_0000 && n <= |addr|
      modifies this`disk, this`ip, this`own, this`logged
      ensures ok <==> |old(own)| + FileCost(old(V()), off, n) <= Capacity(sb)
      ensures ok ==> FileOk(V(), own) && OthersKept(old(V()), V())
      ensures ok ==> r == if n == 0 || (n > 0 && WriteFits(old(ip.size), off, n)) then n else -1
      ensures ok ==> off2 == off + Written(old(ip.size), off, n) && off2 - off <= |addr|
      ensures ok && n > 0 && off <= old(ip.size) ==>
                if off + n <= 140 * 512 then r == n == off2 - off
                else r == -1 && (off2 - off) % 1536 == 0 && off2 <= 140 * 512 < off2 + 1536
      ensures ok && off <= old(ip.size) ==> Wrote(old(V()), V(), own, off, addr[..off2 - off])
      ensures ok && off > old(ip.size) ==> V() == old(V())
      ensures ok ==> InFile(snaps, old(V()), |old(own)|, off, addr, n, off2 - off)
    {
      hide Inv, Wrote, OthersKept, ByteCost, Snapshots;
      ghost var v0, used0 := V(), |own|;
      InvShape(v0, own);
      AppendingStart(v0, own, off, addr);
      SnapshotsStart(v0, own, used0, off, addr, n);
      var i;
      ok, i, snaps := WriteChunks(addr, n, off, v0, used0, [Snap(v0, own, {}, 0)]);
      off2 := off + i;
      r := if i == n then n else -1;
      if ok {
        AppendingFile(V(), own, v0, used0, off, addr, i);
      }
    }

    /** The loop of filewrite: it stops at the end, at the first chunk that is refused, or where the disk is full. */
    method WriteChunks(addr: seq<Byte>, n: int, off: nat, ghost v0: View, ghost used0: nat, ghost snaps0: seq<Snap>)
      returns (ok: bool, i: nat, ghost snaps: seq<Snap>)
      requires InFile(snaps0, v0, used0, off, addr, n, 0) && |snaps0| == 1 && v0.Shape()
      requires v0.ip.size <= MAXFILE * BSIZE
      requires off < UINT && n < 0x8000_0000 && n <= |addr|
      modifies this`disk, this`ip, this`own, this`logged
      ensures ok <==> used0 + FileCost(v0, off, n) <= Capacity(sb)
      ensures ok ==> InFile(snaps, v0, used0, off, addr, n, i) && i == Written(v0.ip.size, off, n)
      ensures ok && n > 0 ==> (i == n <==> WriteFits(v0.ip.size, off, n))
    {
      hide Appending, ByteCost, Snapshots, Written, FileCost, InFile;
      WrittenAll(v0, used0, off, n);
      InFileCost(snaps0, v0, used0, off, addr, n, 0);
      i, ok, snaps := 0, true, snaps0;
      var refused := false;
      ghost var k := 0;
      while ok && i < n && !refused
        invariant if n <= 0 then i == 0 else i <= n
        invariant i <= Written(v0.ip.size, off, n) && (i < n ==> i == k * CHUNK) && (ok ==> |snaps| == k + 1)
        invariant (refused ==> i == Written(v0.ip.size, off, n) < n)
        invariant if ok then InFile(snaps, v0, used0, off, addr, n, i) else used0 + FileCost(v0, off, n) > Capacity(sb)
        decreases ok, n - i, !refused
      {
        var n1 := if n - i > CHUNK then CHUNK else n - i;
        InFileCost(snaps, v0, used0, off, addr, n, i);
        NextChunk(v0.ip.size, ip.size, off, n, k, i, n1);
        WrittenBelow(v0.ip.size, off, n, i);
        Times(k + 1, CHUNK);
        var r;
        ok, r, snaps := AppendChunk(addr, off, i, n1, n, v0, used0, snaps);
        if !ok {
          TooMuch(v0, off, n, i + n1);
        } else if r < 0 {
          refused := true;
        } else {
          i, k := i + r, k + 1;
        }
      }
      if ok {
        InFileCost(snaps, v0, used0, off, addr, n, i);
      }
    }
  }

  /** The file after i bytes of a filewrite; logged: what the chunk that led there logged. */
  datatype Snap = Snap(v: View, own: map<nat, Owner>, logged: set<nat>, i: nat)

  /** Where chunk j of n bytes ends. */
  function ChunkEnd(n: int, j: nat): nat {
    if j * CHUNK < n then j * CHUNK else if n < 0 then 0 else n
  }

  ghost predicate SnapAt(snaps: seq<Snap>, v0: View, used0: nat, off: nat, addr: seq<Byte>, n: int, j: nat)
    requires j < |snaps|
  {
    snaps[j].i == ChunkEnd(n, j) && Appending(snaps[j].v, snaps[j].own, v0, used0, off, addr, snaps[j].i)
  }

  /** Between two snapshots one transaction has changed only what it logged. */
  ghost predicate SnapStep(snaps: seq<Snap>, v0: View, j: nat)
    requires 1 <= j < |snaps|
  {
    && OnlyBlocks(snaps[j - 1].v, snaps[j].v, snaps[j].logged) && InFs(v0.sb, snaps[j].logged)
    && |snaps[j].logged| <= Recovery.MAXOPBLOCKS + 1
  }

  /** The snapshots of a filewrite, from v0 on. */
  ghost predicate Snapshots(snaps: seq<Snap>, v0: View, used0: nat, off: nat, addr: seq<Byte>, n: int) {
    && snaps != [] && snaps[0].v == v0
    && (forall j: nat | j < |snaps| :: SnapAt(snaps, v0, used0, off, addr, n, j))
    && (forall j: nat | 1 <= j < |snaps| :: SnapStep(snaps, v0, j))
  }

  lemma SnapshotsStart(v0: View, own: map<nat, Owner>, used0: nat, off: nat, addr: seq<Byte>, n: int)
    requires Appending(v0, own, v0, used0, off, addr, 0)
    ensures Snapshots([Snap(v0, own, {}, 0)], v0, used0, off, addr, n)
  {
  }

  lemma SnapshotsMore(snaps: seq<Snap>, s: Snap, v0: View, used0: nat, off: nat, addr: seq<Byte>, n: int)
    returns (more: seq<Snap>)
    requires Snapshots(snaps, v0, used0, off, addr, n) && Appending(s.v, s.own, v0, used0, off, addr, s.i)
    requires var t := snaps[|snaps| - 1];
             && OnlyBlocks(t.v, s.v, s.logged) && InFs(v0.sb, s.logged) && |s.logged| <= Recovery.MAXOPBLOCKS + 1
             && s.i == ChunkEnd(n, |snaps|)
    ensures Snapshots(more, v0, used0, off, addr, n) && |more| == |snaps| + 1 && more[|more| - 1] == s
  {
    hide Appending, OnlyBlocks, InFs, ChunkEnd;
    more := snaps + [s];
    forall j: nat | j < |more| ensures SnapAt(more, v0, used0, off, addr, n, j) {
      assert j < |snaps| ==> SnapAt(snaps, v0, used0, off, addr, n, j);
    }
    forall j: nat | 1 <= j < |more| ensures SnapStep(more, v0, j) {
      assert j < |snaps| ==> SnapStep(snaps, v0, j);
    }
  }

  /** If the chunk fits where the file has got to, it fits from where it started. */
  lemma FitsFromStart(size0: nat, size: nat, off: nat, i: nat, n1: nat)
    requires (if off <= size0 then size == Max(size0, off + i) else i == 0 && size == size0)
    requires WriteFits(size, off + i, n1)
    ensures off <= size0 && off + i + n1 <= MAXFILE * BSIZE
  {
  }

  lemma AppendingFile(v: View, own: map<nat, Owner>, v0: View, used0: nat, off: nat, addr: seq<Byte>, i: nat)
    requires Appending(v, own, v0, used0, off, addr, i)
    ensures FileOk(v, own) && OthersKept(v0, v)
    ensures off <= v0.ip.size ==> Wrote(v0, v, own, off, addr[..i])
    ensures off > v0.ip.size ==> v == v0
  {
  }

  lemma WroteFile(v: View, w: View, own: map<nat, Owner>, off: nat, s: seq<Byte>)
    requires Wrote(v, w, own, off, s)
    ensures FileOk(w, own) && OthersKept(v, w) && v.Shape() && off + |s| <= MAXFILE * BSIZE
  {
  }

  lemma WrittenAll(v0: View, used0: nat, off: nat, n: int)
    requires v0.Shape() && v0.ip.size <= MAXFILE * BSIZE
    ensures if n <= 0 then Written(v0.ip.size, off, n) == 0
            else
              Written(v0.ip.size, off, n) <= n
              && (Written(v0.ip.size, off, n) == n <==> WriteFits(v0.ip.size, off, n))
  {
  }

  /** A part of what filewrite has to write takes no more than all of it. */
  lemma TooMuch(v0: View, off: nat, n: int, i: nat)
    requires v0.Shape() && off <= v0.ip.size <= MAXFILE * BSIZE && i <= Written(v0.ip.size, off, n)
    ensures off + i <= MAXFILE * BSIZE && ByteCost(v0, off, i) <= FileCost(v0, off, n)
  {
    ByteCostMonotone(v0, off, i, Written(v0.ip.size, off, n));
  }

  lemma Times(k: nat, c: nat)
    requires k >= 1
    ensures k * c == (k - 1) * c + c
  {
  }

  lemma WrittenBelow(size: nat, off: nat, n: nat, i: nat)
    requires size <= MAXFILE * BSIZE && i <= Written(size, off, n) && off < UINT && i < n
    ensures off + i < UINT
  {
  }

  // ---- balloc and bmap ----

  /** Where the bit of block base + bi is. */
  lemma InMap(base: nat, bi: nat, q: nat)
    requires base == q * BPB && bi < BPB
    ensures (base + bi) / BPB == base / BPB == q && (base + bi) % BPB == bi
  {
  }

  lemma UsedBound(v: View, own: map<nat, Owner>)
    requires Inv(v, own)
    ensures |own| <= Capacity(v.sb)
  {
    FreeExists(v, own);
  }

  lemma FoundDirect(v: View, bn: nat)
    requires v.Shape() && bn < MAXFILE
    ensures bn < NDIRECT ==> DataBlock(v, bn) == v.ip.addrs[bn]
  {
  }

  lemma SameHole(v: View, u: View, bn: nat)
    requires Holes(v, u, 0, 0) && bn < MAXFILE
    ensures DataBlock(u, bn) == 0 <==> DataBlock(v, bn) == 0
  {
    assert HoleAt(v, u, 0, 0, bn);
  }

  lemma EntryInside(v: View, own: map<nat, Owner>)
    requires Inv(v, own) && v.ip.addrs[NDIRECT] != 0 && v.cut == 0
    ensures v.ip.addrs[NDIRECT] < |v.disk|
    ensures forall bn: nat | NDIRECT <= bn < MAXFILE ::
              DataBlock(v, bn) == GetWord(v.disk[v.ip.addrs[NDIRECT]], bn - NDIRECT)
  {
    assert SlotOk(v, own, v.ip.inum, NDIRECT);
  }

  // ---- The end of writei ----

  lemma WritingUsed(v: View, own: map<nat, Owner>, logged: set<nat>, v0: View, used0: nat, before: set<nat>,
                    src: seq<Byte>, off: nat, tot: nat, cost: Cost)
    requires Writing(v, own, logged, v0, used0, before, src, off, tot, cost) && v0.Shape()
    ensures off + |src| <= MAXFILE * BSIZE && used0 + ByteCost(v0, off, tot) <= Capacity(v.sb)
  {
    FreeExists(v, own);
  }

  lemma WritingEnd(v: View, own: map<nat, Owner>, logged: set<nat>, v0: View, used0: nat, before: set<nat>,
                   src: seq<Byte>, off: nat, cost: Cost)
    requires Writing(v, own, logged, v0, used0, before, src, off, |src|, cost)
    ensures v0.Shape() && v.sb == v0.sb && Inv(v, own) && v.Shape() && off + |src| <= MAXFILE * BSIZE
    ensures Spliced(v0, v, off, src) && Fills(v0, v, off / BSIZE, TopBlock(off, |src|))
    ensures CostOk(cost, before, logged, v.ip.addrs[NDIRECT], Span(off, |src|), ByteCost(v0, off, |src|))
    ensures OnlyBlocks(v0, v, cost.all) && InFs(v0.sb, cost.all) && |own| == used0 + ByteCost(v0, off, |src|)
    ensures PointersThere(v0, off / BSIZE, TopBlock(off, |src|)) ==> v.ip == v0.ip
    ensures v.ip.size == v0.ip.size && v.ip.inum == v0.ip.inum
  {
    assert src[..|src|] == src;
  }

  lemma SplicedLimit(v: View, w: View, off: nat, s: seq<Byte>)
    requires Spliced(v, w, off, s)
    ensures off + |s| <= MAXFILE * BSIZE
  {
  }

  lemma TouchedInside(v0: View, v: View, c: Cost, before: set<nat>, logged: set<nat>, off: nat, n: nat)
    requires v0.Shape() && v.Shape() && off + n <= MAXFILE * BSIZE && (n == 0 ==> c.all == {})
    requires CostOk(c, before, logged, v.ip.addrs[NDIRECT], Span(off, n), ByteCost(v0, off, n))
    ensures logged == before + c.all && |c.all| <= Budget(v0, off, n)
  {
    CostBudget(c, before, logged, v.ip.addrs[NDIRECT], v0, off, n, 0);
  }

  lemma TouchedBeyond(v0: View, v: View, w: View, c: Cost, before: set<nat>, logged: set<nat>, off: nat, n: nat)
    requires v0.Shape() && v.Shape() && v.sb == v0.sb && 1 <= n && off + n <= MAXFILE * BSIZE
    requires CostOk(c, before, logged, v.ip.addrs[NDIRECT], Span(off, n), ByteCost(v0, off, n))
    requires OnlyBlocks(v0, v, c.all) && InFs(v0.sb, c.all) && OnlyBlocks(v, w, {v.sb.IBlock(v.ip.inum)})
    ensures var t := c.all + {v.sb.IBlock(v.ip.inum)};
            && logged + {v.sb.IBlock(v.ip.inum)} == before + t && |t| <= Budget(v0, off, n)
            && OnlyBlocks(v0, w, t) && InFs(v0.sb, t)
  {
    CostBudget(c, before, logged, v.ip.addrs[NDIRECT], v0, off, n, v.sb.IBlock(v.ip.inum));
    OnlyBlocksTwice(v0, v, w, c.all, {v.sb.IBlock(v.ip.inum)});
    IBlockInFs(v);
    FrameJoin(v0.sb, c.all, {v.sb.IBlock(v.ip.inum)});
  }

  // ---- readi ----

  /** Where readi stops. */
  function ReadEnd(size: nat, off: nat, n: nat): nat {
    if off > size then off else if off + n > size then size else off + n
  }

  /** The blocks that are missing where readi reads. */
  function ReadCost(v: View, off: nat, n: nat): nat
    requires v.Shape() && v.ip.size <= MAXFILE * BSIZE
  {
    if off > v.ip.size then 0 else ByteCost(v, off, ReadEnd(v.ip.size, off, n) - off)
  }

  lemma ReadUpTo(v: View, off: nat, n: nat, r: nat)
    requires v.Shape() && off <= v.ip.size <= MAXFILE * BSIZE && r == if off + n > v.ip.size then v.ip.size - off else n
    ensures ReadEnd(v.ip.size, off, n) == off + r && ReadCost(v, off, n) == ByteCost(v, off, r)
  {
  }

  /** readi gets through where so many blocks are missing. */
  ghost predicate Readable(sb: Super, own0: map<nat, Owner>, outstanding: nat, cost: nat) {
    cost == 0 || (outstanding >= 1 && |own0| + cost <= Capacity(sb))
  }

  lemma ReadNothing(v0: View, own0: map<nat, Owner>, outstanding: nat, off: nat)
    requires v0.Shape() && off <= MAXFILE * BSIZE
    ensures Readable(v0.sb, own0, outstanding, ByteCost(v0, off, 0)) && off / BSIZE == TopBlock(off, 0) <= MAXFILE
  {
    NoCost(v0, off / BSIZE);
  }

  /** The next block of readi: if it cannot be had, neither can the whole range. */
  lemma ReadFurther(v0: View, own0: map<nat, Owner>, outstanding: nat, off: nat, tot: nat, m: nat, r: nat)
    requires v0.Shape() && tot < r && m == Fitting(off + tot, r - tot) && off + r <= MAXFILE * BSIZE
    requires tot > 0 ==> (off + tot) % BSIZE == 0
    requires Readable(v0.sb, own0, outstanding, ByteCost(v0, off, tot))
    ensures var a, b := off / BSIZE, (off + tot) / BSIZE;
            && TopBlock(off, tot) == b < MAXFILE && TopBlock(off, tot + m) == b + 1
            && (Readable(v0.sb, own0, outstanding, ByteCost(v0, off, tot + m)) <==>
                 RangeCost(v0, a, b + 1) == RangeCost(v0, a, b)
                 || (outstanding >= 1 && |own0| + RangeCost(v0, a, b + 1) <= Capacity(v0.sb)))
            && (Readable(v0.sb, own0, outstanding, ByteCost(v0, off, r)) ==>
                 Readable(v0.sb, own0, outstanding, ByteCost(v0, off, tot + m)))
  {
    hide RangeCost;
    NextBlock(off, tot, m);
    ByteCostMonotone(v0, off, tot, tot + m);
    ByteCostMonotone(v0, off, tot + m, r);
  }

  /** The state v of readi when the file blocks a..b-1 have been read; the blocks t are logged. */
  ghost predicate Reading(v: View, own: map<nat, Owner>, logged: set<nat>, v0: View, own0: map<nat, Owner>,
                          before: set<nat>, a: nat, b: nat, t: set<nat>)
  {
    && a <= b <= MAXFILE && Inv(v, own) && Grew(v0, v) && Fills(v0, v, a, b) && |own| == |own0| + RangeCost(v0, a, b)
    && logged == before + t && OnlyBlocks(v0, v, t) && InFs(v0.sb, t)
    && (RangeCost(v0, a, b) == 0 ==> v == v0 && own == own0 && t == {})
    && (PointersThere(v0, a, b) ==> v.ip == v0.ip)
  }

  /** How a read of n bytes at off leaves the file: its holes there are blocks of zeros, in memory and on the disk. */
  ghost predicate WasRead(v: View, w: View, off: nat, n: nat) {
    && Grew(v, w) && Fills(v, w, off / BSIZE, TopBlock(off, n))
    && (PointersThere(v, off / BSIZE, TopBlock(off, n)) ==> w.ip == v.ip)
  }

  /** After a read the inode on the disk is current exactly when none of its pointers was missing for the range. */
  lemma ReadSynced(v: View, w: View, off: nat, n: nat)
    requires WasRead(v, w, off, n) && Synced(v) && off + n <= MAXFILE * BSIZE
    ensures Synced(w) <==> PointersThere(v, off / BSIZE, TopBlock(off, n))
  {
    StillSynced(v, w);
    TopWithin(off, n);
    if w.ip == v.ip {
      PointersFilled(v, w, off / BSIZE, TopBlock(off, n));
    }
  }

  lemma ReadingStart(v0: View, own0: map<nat, Owner>, before: set<nat>, a: nat)
    requires Inv(v0, own0) && a <= MAXFILE
    ensures Reading(v0, own0, before, v0, own0, before, a, a, {})
  {
    hide SlotOk, OwnerOk, BitOk, Grew;
    GrewNothing(v0, own0);
    FillsNothing(v0, a);
    NoCost(v0, a);
  }

  /** What the next block takes, counted from the start. */
  lemma ReadingCount(v: View, own: map<nat, Owner>, logged: set<nat>, v0: View, own0: map<nat, Owner>,
                     before: set<nat>, a: nat, b: nat, t: set<nat>)
    requires Reading(v, own, logged, v0, own0, before, a, b, t) && b < MAXFILE
    ensures v.Shape() && v0.Shape() && Inv(v, own) && v.sb == v0.sb
    ensures RangeCost(v0, a, b + 1) == RangeCost(v0, a, b) + RangeCost(v, b, b + 1)
    ensures |own| + RangeCost(v, b, b + 1) == |own0| + RangeCost(v0, a, b + 1)
  {
    hide Inv, Fills, RangeCost, OnlyBlocks, InFs;
    InvShape(v, own);
    CostAfter(v0, v, a, b, b, b + 1);
  }

  lemma ReadingStep(v: View, own: map<nat, Owner>, w: View, own2: map<nat, Owner>, l1: set<nat>, l2: set<nat>,
                    v0: View, own0: map<nat, Owner>, before: set<nat>, a: nat, b: nat, t: set<nat>,
                    addr: nat, bm: set<nat>, x: set<nat>)
    requires Reading(v, own, l1, v0, own0, before, a, b, t) && BMapped(v, own, w, own2, l1, l2, b, addr, bm, x)
    ensures Reading(w, own2, l2, v0, own0, before, a, b + 1, t + x) && Grew(v0, w)
  {
    hide Inv, Grew, Fills, RangeCost, OnlyBlocks, InFs, PointersThere, PointerThere, DataBlock;
    ReadingCount(v, own, l1, v0, own0, before, a, b, t);
    PointersStep(v0, v, a, b);
    GrewTwice(v0, v, w);
    FillsTwice(v0, v, w, a, b, b, b + 1);
    OnlyBlocksTwice(v0, v, w, t, x);
    FrameJoin(v0.sb, t, x);
    LoggedMore(before, t, x, l1, l2);
  }

  lemma LoggedMore(before: set<nat>, t: set<nat>, x: set<nat>, l1: set<nat>, l2: set<nat>)
    requires l1 == before + t && l2 == l1 + x
    ensures l2 == before + (t + x)
  {
  }

  /** The bytes in the block that bmap has returned are those of the file. */
  lemma ReadBytes(v: View, own: map<nat, Owner>, w: View, own2: map<nat, Owner>, l1: set<nat>, l2: set<nat>, v0: View,
                  addr: nat, bm: set<nat>, x: set<nat>, pos: nat, b: nat, m: nat)
    requires Grew(v0, w) && BMapped(v, own, w, own2, l1, l2, b, addr, bm, x)
    requires b == pos / BSIZE && pos + m <= MAXFILE * BSIZE && pos % BSIZE + m <= BSIZE
    ensures v0.Shape() && addr < |w.disk|
    ensures var s := w.disk[addr][pos % BSIZE..pos % BSIZE + m]; forall k | 0 <= k < m :: s[k] == ByteAt(v0, pos + k)
  {
    hide Inv, OthersKept, Fills, RangeCost, OnlyBlocks, InFs, BlockCost, PointerThere, DataBlock;
    InvShape(w, own2);
    BlockInside(w, own2, b);
    GrewShape(v0, w);
    var s := w.disk[addr][pos % BSIZE..pos % BSIZE + m];
    forall k | 0 <= k < m ensures s[k] == ByteAt(v0, pos + k) {
      assert ByteKept(v0, w, pos + k);
      SameBlock(pos, k);
    }
  }

  lemma SameBlock(pos: nat, k: nat)
    requires pos % BSIZE + k < BSIZE
    ensures (pos + k) / BSIZE == pos / BSIZE && (pos + k) % BSIZE == pos % BSIZE + k
  {
  }

  lemma ReadingDone(v: View, own: map<nat, Owner>, logged: set<nat>, v0: View, own0: map<nat, Owner>,
                    before: set<nat>, off: nat, r: nat, t: set<nat>)
    requires Reading(v, own, logged, v0, own0, before, off / BSIZE, TopBlock(off, r), t) && off + r <= MAXFILE * BSIZE
    ensures v.Shape() && v0.Shape() && Inv(v, own) && WasRead(v0, v, off, r) && v.ip.size == v0.ip.size
    ensures |own| == |own0| + ByteCost(v0, off, r) && logged == before + t && OnlyBlocks(v0, v, t) && InFs(v0.sb, t)
    ensures ByteCost(v0, off, r) == 0 ==> v == v0 && own == own0 && t == {}
  {
  }

  lemma NothingTouched(v: View, logged: set<nat>)
    ensures OnlyBlocks(v, v, {}) && InFs(v.sb, {}) && logged + {} == logged
  {
  }

  lemma ReadSlice(v: View, off: nat, r: nat, data: seq<Byte>)
    requires v.Shape() && off + r <= v.ip.size <= MAXFILE * BSIZE && |data| == r
    requires forall k | 0 <= k < r :: data[k] == ByteAt(v, off + k)
    ensures data == Content(v, v.ip.size)[off..off + r]
  {
    hide ByteAt;
    var c := Content(v, v.ip.size)[off..off + r];
    forall k | 0 <= k < r ensures data[k] == c[k] {
    }
  }

  /** The sum of two 32-bit numbers. */
  function Sum(a: nat, b: nat): nat {
    (a + b) % UINT
  }

  /** The test off + n < off of an unsigned sum. */
  lemma Wraps(off: nat, n: nat)
    requires off < UINT && n < UINT
    ensures Sum(off, n) < off <==> off + n >= UINT
  {
    if off + n >= UINT {
      assert (off + n) % UINT == off + n - UINT;
    } else {
      assert (off + n) % UINT == off + n;
    }
  }

  // ---- itrunc ----

  lemma EmptyFile(v0: View, v: View, own: map<nat, Owner>)
    requires Inv(v, own) && v.cut == 0 && OthersKept(v0, v) && forall k: nat | k <= NDIRECT :: v.ip.addrs[k] == 0
    ensures var w := Updated(v.(ip := v.ip.(size := 0)));
            FileOk(w, own) && w.ip.size == 0 && OthersKept(v0, w) && Dense(w)
  {
    hide SlotOk, OwnerOk, BitOk, OthersKept, BytesKept;
    var w1 := v.(ip := v.ip.(size := 0));
    var w := Updated(w1);
    Resized(v, own, 0);
    UpdatedInv(w1, own);
    OthersKeptTwice(v0, v, w1);
    OthersKeptTwice(v0, w1, w);
    forall bn: nat | bn < MAXFILE ensures FilledAt(w, 0, bn) {
      assert HoleAt(v, w1, 0, 0, bn) && HoleAt(w1, w, 0, 0, bn);
    }
  }

  /** Between v0 and w only the blocks t have changed, all of them logged and all of them in the free map. */
  ghost predicate GaveBack(v0: View, w: View, l0: set<nat>, l1: set<nat>, t: set<nat>) {
    l1 == l0 + t && OnlyBlocks(v0, w, t) && forall x | x in t :: v0.sb.bmapstart <= x < v0.sb.datastart
  }

  lemma GaveBackMore(v0: View, v: View, w: View, l0: set<nat>, l1: set<nat>, t: set<nat>, b: nat)
    requires GaveBack(v0, v, l0, l1, t) && OnlyBlocks(v, w, {b}) && v0.sb.bmapstart <= b < v0.sb.datastart
    ensures GaveBack(v0, w, l0, l1 + {b}, t + {b})
  {
    OnlyBlocksTwice(v0, v, w, t, {b});
    assert l0 + t + {b} == l0 + (t + {b});
  }

  lemma GaveBackAll(v0: View, v: View, w: View, l0: set<nat>, l1: set<nat>, t: set<nat>)
    requires v.Shape() && v.sb == v0.sb && GaveBack(v0, v, l0, l1, t) && OnlyBlocks(v, w, {v.sb.IBlock(v.ip.inum)})
    ensures var t2 := t + {v.sb.IBlock(v.ip.inum)};
            && l1 + {v.sb.IBlock(v.ip.inum)} == l0 + t2 && OnlyBlocks(v0, w, t2) && InFs(v.sb, t2)
            && |t2| <= v.sb.datastart - v.sb.bmapstart + 1
            && forall x | x in t2 :: v.sb.bmapstart <= x < v.sb.datastart || x == v.sb.IBlock(v.ip.inum)
  {
    OnlyBlocksTwice(v0, v, w, t, {v.sb.IBlock(v.ip.inum)});
    IBlockInFs(v);
    SubsetCard(t, BlockRange(v.sb.bmapstart, v.sb.datastart - v.sb.bmapstart));
  }

  lemma EntryLost(v: View, own: map<nat, Owner>, own0: map<nat, Owner>)
    requires Inv(v, own) && v.cut < NINDIRECT && OnlyLost(own0, own, v.ip.inum)
    ensures OnlyLost(own0, Without(v, own, 13 + v.cut), v.ip.inum)
  {
    var b := SlotOf(v, v.ip.inum, 13 + v.cut);
    assert SlotOk(v, own, v.ip.inum, 13 + v.cut);
    assert b in own ==> OwnerOk(v, own, b);
    LoseOne(own0, own, v.ip.inum, b);
  }

  lemma IBlockInFs(v: View)
    requires v.Shape()
    ensures InFs(v.sb, {v.sb.IBlock(v.ip.inum)})
  {
    assert v.ip.inum / IPB <= v.sb.ninodes / IPB;
  }

  lemma UpdatedCopy(v: View)
    requires v.Shape()
    ensures Synced(Updated(v))
    ensures forall i: nat, k: nat | i < v.sb.ninodes && i != v.ip.inum && k < DWORDS :: WordKept(v, Updated(v), i, k)
  {
    var w := Updated(v);
    forall k: nat | k < DWORDS ensures SyncedAt(w, k) {
      UpdatedWord(v, v.ip.inum, k);
    }
    forall i: nat, k: nat | i < v.sb.ninodes && i != v.ip.inum && k < DWORDS ensures WordKept(v, w, i, k) {
      UpdatedWord(v, i, k);
    }
  }
}
