/**
 itrunc: how giving blocks back, one by one, keeps the ownership invariant.
 */
module Truncate {
  import opened Blocks
  import opened Inodes
  import opened Contents

  /** The blocks after bfree(b): only its bit is cleared. */
  function Released(v: View, b: nat): (d: Disk)
    requires v.Shape() && b < v.sb.size
    ensures |d| == |v.disk|
  {
    var bb := v.sb.BBlock(b);
    v.disk[bb := ClearBit(v.disk[bb], b % BPB)]
  }

  lemma ReleasedUse(v: View, b: nat, c: nat, w: View)
    requires v.Shape() && w.Shape() && w.sb == v.sb && b < v.sb.size && c < v.sb.size && w.disk == Released(v, b)
    ensures UseChange(v, w, b, false, c)
  {
    LayoutBitmap(v, c);
    LayoutBitmap(v, b);
    if v.sb.BBlock(c) == v.sb.BBlock(b) {
      assert c % BPB == b % BPB ==> c == b;
    }
  }

  /** Releasing a block touches no inode block and no data block. */
  lemma ReleasedElsewhere(v: View, b: nat, x: nat)
    requires v.Shape() && b < v.sb.size && x < v.sb.size && (x < v.sb.bmapstart || v.sb.datastart <= x)
    ensures Released(v, b)[x] == v.disk[x]
  {
    LayoutBitmap(v, b);
  }

  /** Pointers as before except that pointer s0 of the inode in memory is gone. */
  ghost predicate Cleared(v: View, w: View, s0: nat)
    requires v.Shape()
  {
    && w.Shape() && w.sb == v.sb && w.ip.inum == v.ip.inum && s0 < SLOTS
    && forall i: nat, s: nat | i < v.sb.ninodes && s < SLOTS :: SlotChange(v, w, s0, 0, i, s)
  }

  /** One bfree with the pointer that led to the block: the block is unowned, nobody else notices. */
  lemma ReleaseStep(v: View, own: map<nat, Owner>, w: View, s0: nat, b: nat)
    requires Inv(v, own) && s0 < SLOTS && b != 0 && SlotOf(v, v.ip.inum, s0) == b && b < v.sb.size
    requires Cleared(v, w, s0) && w.disk == Released(v, b)
    ensures b in own && own[b] == Owner(v.ip.inum, s0) && Inv(w, own - {b}) && OthersKept(v, w)
  {
    assert SlotOk(v, own, v.ip.inum, s0);
    forall c: nat | c < v.sb.size ensures UseChange(v, w, b, false, c) {
      ReleasedUse(v, b, c, w);
    }
    LoseInv(v, own, w, s0, b);
    LayoutBitmap(v, b);
    PrivateChange(v, own, w, {v.sb.BBlock(b)});
  }

  /** A released view with the same inode addresses, or fewer: pointers of inode i. */
  lemma ReleasedAddr(v: View, w: View, b: nat, i: nat, k: nat)
    requires v.Shape() && w.Shape() && w.sb == v.sb && w.ip.inum == v.ip.inum && b < v.sb.size
    requires w.disk == Released(v, b)
    requires i < v.sb.ninodes && k <= NDIRECT && i != v.ip.inum
    ensures AddrOf(w, i, k) == AddrOf(v, i, k)
  {
    assert i / IPB <= v.sb.ninodes / IPB;
    ReleasedElsewhere(v, b, v.sb.IBlock(i));
  }

  /** ip->addrs[k] = 0 after bfree, for a direct block. */
  function DropDirect(v: View, k: nat): View
    requires v.Shape() && k < NDIRECT && v.ip.addrs[k] < v.sb.size
  {
    v.(disk := Released(v, v.ip.addrs[k]), ip := v.ip.(addrs := v.ip.addrs[k := 0]))
  }

  lemma DropDirectStep(v: View, own: map<nat, Owner>, k: nat)
    requires Inv(v, own) && k < NDIRECT && v.ip.addrs[k] != 0
    ensures v.ip.addrs[k] < v.sb.size && InUse(v, v.ip.addrs[k])
    ensures own.Keys >= {v.ip.addrs[k]} && own[v.ip.addrs[k]].inum == v.ip.inum
    ensures Inv(DropDirect(v, k), own - {v.ip.addrs[k]}) && OthersKept(v, DropDirect(v, k))
  {
    var b := v.ip.addrs[k];
    assert SlotOk(v, own, v.ip.inum, k) && BitOk(v, own, b);
    var w := DropDirect(v, k);
    forall i: nat, s: nat | i < v.sb.ninodes && s < SLOTS ensures SlotChange(v, w, k, 0, i, s) {
      ReleasedSlot(v, own, w, b, i, s);
    }
    ReleaseStep(v, own, w, k, b);
  }

  /** Releasing b changes no pointer by itself. */
  lemma ReleasedSlot(v: View, own: map<nat, Owner>, w: View, b: nat, i: nat, s: nat)
    requires Inv(v, own) && w.Shape() && w.sb == v.sb && w.ip.inum == v.ip.inum && b < v.sb.size
    requires w.disk == Released(v, b)
    requires i < v.sb.ninodes && s < SLOTS
    ensures i != v.ip.inum ==> SlotOf(w, i, s) == SlotOf(v, i, s)
    ensures AddrOf(v, i, NDIRECT) != 0 ==> AddrOf(v, i, NDIRECT) < v.sb.size
    ensures AddrOf(v, i, NDIRECT) != 0 ==> w.disk[AddrOf(v, i, NDIRECT)] == v.disk[AddrOf(v, i, NDIRECT)]
  {
    assert SlotOk(v, own, i, NDIRECT);
    if AddrOf(v, i, NDIRECT) != 0 {
      ReleasedElsewhere(v, b, AddrOf(v, i, NDIRECT));
    }
    if i != v.ip.inum {
      ReleasedAddr(v, w, b, i, NDIRECT);
      if s <= NDIRECT {
        ReleasedAddr(v, w, b, i, s);
      }
    }
  }

  /** One iteration of the loop over the indirect block: entry v.cut is dealt with. */
  function DropEntry(v: View): View
    requires v.Shape() && v.cut < NINDIRECT && v.ip.addrs[NDIRECT] < v.sb.size
  {
    var b := GetWord(v.disk[v.ip.addrs[NDIRECT]], v.cut);
    if 0 < b < v.sb.size then v.(disk := Released(v, b), cut := v.cut + 1) else v.(cut := v.cut + 1)
  }

  /** The ownership map without the block of slot s of the inode, if there is one. */
  ghost function Without(v: View, own: map<nat, Owner>, s: nat): map<nat, Owner>
    requires v.Shape() && s < SLOTS
  {
    own - {SlotOf(v, v.ip.inum, s)}
  }

  lemma DropEntryStep(v: View, own: map<nat, Owner>)
    requires Inv(v, own) && v.cut < NINDIRECT && v.ip.addrs[NDIRECT] != 0
    ensures v.sb.datastart <= v.ip.addrs[NDIRECT] < v.sb.size
    ensures var b := GetWord(v.disk[v.ip.addrs[NDIRECT]], v.cut);
            b != 0 ==> b < v.sb.size && InUse(v, b) && b in own && own[b].inum == v.ip.inum
    ensures Inv(DropEntry(v), Without(v, own, 13 + v.cut)) && OthersKept(v, DropEntry(v))
    ensures DropEntry(v).disk[v.ip.addrs[NDIRECT]] == v.disk[v.ip.addrs[NDIRECT]]
  {
    var a := v.ip.addrs[NDIRECT];
    var s0 := 13 + v.cut;
    assert SlotOk(v, own, v.ip.inum, NDIRECT) && SlotOk(v, own, v.ip.inum, s0);
    var b := GetWord(v.disk[a], v.cut);
    var w := DropEntry(v);
    if b != 0 {
      assert SlotOf(v, v.ip.inum, s0) == b;
      assert BitOk(v, own, b);
      forall i: nat, s: nat | i < v.sb.ninodes && s < SLOTS ensures SlotChange(v, w, s0, 0, i, s) {
        ReleasedSlot(v, own, w, b, i, s);
      }
      ReleasedElsewhere(v, b, a);
      ReleaseStep(v, own, w, s0, b);
    } else {
      CutEmpty(v, own, w);
    }
  }

  ghost predicate EmptyEntry(v: View) {
    v.Shape() && v.cut < NINDIRECT && 0 != v.ip.addrs[NDIRECT] < v.sb.size
    && GetWord(v.disk[v.ip.addrs[NDIRECT]], v.cut) == 0
  }

  lemma CutSlot(v: View, w: View, i: nat, s: nat)
    requires EmptyEntry(v) && w == v.(cut := v.cut + 1) && i < v.sb.ninodes && s < SLOTS
    ensures w.Shape() && SlotOf(w, i, s) == SlotOf(v, i, s)
  {
    var a := AddrOf(v, i, NDIRECT);
    assert AddrOf(w, i, NDIRECT) == a;
    if s <= NDIRECT {
      assert AddrOf(w, i, s) == AddrOf(v, i, s);
    } else if i != v.ip.inum || s - 13 != v.cut {
      assert (i == v.ip.inum && s - 13 < v.cut) == (i == w.ip.inum && s - 13 < w.cut);
    } else {
      assert SlotOf(v, i, s) == GetWord(v.disk[a], v.cut) == 0;
      assert SlotOf(w, i, s) == 0;
    }
  }

  /** An empty entry: only the counter moves. */
  lemma CutEmpty(v: View, own: map<nat, Owner>, w: View)
    requires Inv(v, own) && EmptyEntry(v) && w == v.(cut := v.cut + 1)
    ensures Without(v, own, 13 + v.cut) == own && Inv(w, own) && OthersKept(v, w)
  {
    CutSlot(v, w, v.ip.inum, 0);
    forall i: nat, s: nat | i < v.sb.ninodes && s < SLOTS ensures SlotOk(w, own, i, s) {
      CutSlot(v, w, i, s);
      assert SlotOk(v, own, i, s);
    }
    forall c | c in own ensures OwnerOk(w, own, c) && c != 0 {
      assert OwnerOk(v, own, c);
      CutSlot(v, w, own[c].inum, own[c].slot);
    }
    forall c: nat | c < w.sb.size ensures BitOk(w, own, c) {
      assert BitOk(v, own, c);
    }
    NothingThere(v, own);
    PrivateChange(v, own, w, {});
  }

  lemma NothingThere(v: View, own: map<nat, Owner>)
    requires Inv(v, own) && EmptyEntry(v)
    ensures Without(v, own, 13 + v.cut) == own
  {
    assert SlotOf(v, v.ip.inum, 13 + v.cut) == 0;
    assert forall c | c in own :: OwnerOk(v, own, c) ==> c != 0;
  }

  /** bfree of the indirect block itself, once every entry is dealt with. */
  function DropIndirect(v: View): View
    requires v.Shape() && v.ip.addrs[NDIRECT] < v.sb.size
  {
    v.(disk := Released(v, v.ip.addrs[NDIRECT]), ip := v.ip.(addrs := v.ip.addrs[NDIRECT := 0]), cut := 0)
  }

  lemma DropIndirectStep(v: View, own: map<nat, Owner>)
    requires Inv(v, own) && v.cut == NINDIRECT && v.ip.addrs[NDIRECT] != 0
    ensures v.ip.addrs[NDIRECT] < v.sb.size && InUse(v, v.ip.addrs[NDIRECT])
    ensures v.ip.addrs[NDIRECT] in own && own[v.ip.addrs[NDIRECT]].inum == v.ip.inum
    ensures Inv(DropIndirect(v), own - {v.ip.addrs[NDIRECT]}) && OthersKept(v, DropIndirect(v))
  {
    var b := v.ip.addrs[NDIRECT];
    assert SlotOk(v, own, v.ip.inum, NDIRECT) && BitOk(v, own, b);
    var w := DropIndirect(v);
    forall i: nat, s: nat | i < v.sb.ninodes && s < SLOTS ensures SlotChange(v, w, NDIRECT, 0, i, s) {
      ReleasedSlot(v, own, w, b, i, s);
    }
    ReleaseStep(v, own, w, NDIRECT, b);
  }

  /** own2 is own without blocks of inode i only: what itrunc has done so far. */
  ghost predicate OnlyLost(own: map<nat, Owner>, own2: map<nat, Owner>, i: nat) {
    && (forall b | b in own2 :: b in own && own2[b] == own[b])
    && forall b | b in own && b !in own2 :: own[b].inum == i
  }

  lemma LoseOne(own: map<nat, Owner>, own2: map<nat, Owner>, i: nat, b: nat)
    requires OnlyLost(own, own2, i) && (b in own2 ==> own2[b].inum == i)
    ensures OnlyLost(own, own2 - {b}, i)
  {
  }

  /** With every pointer of the inode gone, it owns nothing. */
  lemma NothingLeft(v: View, own: map<nat, Owner>, own0: map<nat, Owner>)
    requires Inv(v, own) && OnlyLost(own0, own, v.ip.inum)
    requires forall s: nat | s < SLOTS :: SlotOf(v, v.ip.inum, s) == 0
    ensures forall b :: b in own <==> b in own0 && own0[b].inum != v.ip.inum
  {
    forall b | b in own ensures own[b].inum != v.ip.inum {
      assert OwnerOk(v, own, b);
    }
  }
}
