/**
 The formats of fs.h and log.c on the bytes of a block: the bit order of the free map, the byte
 order of a word, and the offsets of the fields of struct dinode.
 */
module DiskBytes {
  import opened Blocks
  import opened Inodes
  import opened Contents
  import opened Truncate

  // ---- The free map ----

  /** x & (1 << k), as arithmetic. */
  predicate HasBit(x: nat, k: nat) {
    x / Exp2(k) % 2 == 1
  }

  lemma DivUnique(x: nat, d: nat, q: nat, r: nat)
    requires d > 0 && x == q * d + r && r < d
    ensures x / d == q
  {
    var q2, r2 := x / d, x % d;
    SameMultiple(q, r, q2, r2, d);
  }

  lemma SameMultiple(q: int, r: nat, q2: int, r2: nat, d: nat)
    requires q * d + r == q2 * d + r2 && r < d && r2 < d
    ensures q == q2
  {
    assert (q - q2) * d == r2 - r;
    if q > q2 {
      AtLeast(q - q2, d);
    } else if q < q2 {
      assert (q2 - q) * d == r - r2;
      AtLeast(q2 - q, d);
    }
  }

  lemma AtLeast(a: int, d: nat)
    requires a >= 1
    ensures a * d >= d
  {
  }

  lemma HalveThenDivide(x: nat, d: nat)
    requires d > 0
    ensures x / 2 / d == x / (2 * d)
  {
    var q, r := x / 2 / d, x / 2 % d;
    assert x / 2 == q * d + r;
    assert x == q * (2 * d) + (2 * r + x % 2);
    DivUnique(x, 2 * d, q, 2 * r + x % 2);
  }

  lemma {:induction false} NatBitMeans(x: nat, k: nat)
    ensures NatBit(x, k) <==> HasBit(x, k)
    decreases k
  {
    if k > 0 {
      NatBitMeans(x / 2, k - 1);
      HalveThenDivide(x, Exp2(k - 1));
    }
  }

  /** Setting a clear bit adds its weight, clearing a set one takes it away. */
  lemma {:induction false} PutBitWeighs(x: nat, k: nat, on: bool, w: nat)
    requires k < w && x < Exp2(w)
    ensures PutBit(x, k, on, w) == if NatBit(x, k) == on then x else if on then x + Exp2(k) else x - Exp2(k)
    decreases k
  {
    if k > 0 {
      PutBitWeighs(x / 2, k - 1, on, w - 1);
    }
  }

  /** y is x with the weight of bit k added to byte k / 8, and nothing else changed. */
  ghost predicate BitAdded(x: Block, y: Block, k: nat)
    requires k < BPB
  {
    y[k / 8] == x[k / 8] + Exp2(k % 8) && forall i | 0 <= i < BSIZE && i != k / 8 :: y[i] == x[i]
  }

  lemma ByteBitWeighs(x: Byte, k: nat, on: bool)
    requires k < 8
    ensures PutByteBit(x, k, on) == if NatBit(x, k) == on then x else if on then x + Exp2(k) else x - Exp2(k)
  {
    assert Exp2(8) == 256 by {
      assert Exp2(4) == 16;
    }
    PutBitWeighs(x, k, on, 8);
  }

  lemma SetBitOnBytes(b: Block, k: nat)
    requires k < BPB
    ensures Bit(b, k) <==> HasBit(b[k / 8], k % 8)
    ensures Bit(b, k) ==> SetBit(b, k) == b
    ensures !Bit(b, k) ==> BitAdded(b, SetBit(b, k), k)
  {
    NatBitMeans(b[k / 8], k % 8);
    ByteBitWeighs(b[k / 8], k % 8, true);
  }

  lemma ClearBitOnBytes(b: Block, k: nat)
    requires k < BPB && Bit(b, k)
    ensures BitAdded(ClearBit(b, k), b, k)
  {
    ByteBitWeighs(b[k / 8], k % 8, false);
  }

  /** The bit of block b in the free map of disk: set or not, on the bytes. */
  predicate MapBit(disk: Disk, sb: Super, b: nat)
    requires sb.Ok() && |disk| == sb.size && b < sb.size
  {
    MapFits(sb, b);
    HasBit(disk[sb.bmapstart + b / 4096][b % 4096 / 8], b % 8)
  }

  lemma MapFits(sb: Super, b: nat)
    requires sb.Ok() && b < sb.size
    ensures sb.bmapstart + b / 4096 < sb.size
  {
    assert b / BPB <= sb.size / BPB;
  }

  lemma InUseOnBytes(v: View, b: nat)
    requires v.Shape() && b < v.sb.size
    ensures InUse(v, b) <==> MapBit(v.disk, v.sb, b)
  {
    hide NatBit, HasBit;
    MapFits(v.sb, b);
    BitInByte(b);
    SetBitOnBytes(v.disk[v.sb.BBlock(b)], b % BPB);
  }

  lemma BitInByte(b: nat)
    ensures b % 4096 % 8 == b % 8
  {
    assert b == (b / 4096) * 512 * 8 + b % 4096;
  }

  /** balloc on the bytes: b is the lowest clear bit; it is set, block b is cleared, and no other byte changes. */
  ghost predicate TookBlock(d: Disk, d2: Disk, sb: Super, b: nat)
    requires sb.Ok() && |d| == sb.size
  {
    && b < sb.size == |d2| && !MapBit(d, sb, b) && (forall c: nat | c < b :: MapBit(d, sb, c))
    && var m := sb.bmapstart + b / 4096;
       && m < sb.size && (b != m ==> BitAdded(d[m], d2[m], b % 4096)) && (forall i | 0 <= i < 512 :: d2[b][i] == 0)
       && forall x: nat | x < sb.size && x != m && x != b :: d2[x] == d[x]
  }

  /** bfree on the bytes: the weight of bit b is taken out of its map byte, and no other byte changes. */
  ghost predicate GaveBlock(d: Disk, d2: Disk, sb: Super, b: nat) {
    && |d2| == |d|
    && var m := sb.bmapstart + b / 4096;
       && m < |d| && BitAdded(d2[m], d[m], b % 4096) && forall x: nat | x < |d| && x != m :: d2[x] == d[x]
  }

  lemma AllocatedOnBytes(v: View, b: nat)
    requires v.Shape() && b < v.sb.size && !InUse(v, b) && forall c: nat | c < b :: InUse(v, c)
    ensures TookBlock(v.disk, Allocated(v, b), v.sb, b)
  {
    hide NatBit, MapBit, BitAdded, SetBit;
    MapFits(v.sb, b);
    forall c: nat | c <= b ensures InUse(v, c) <==> MapBit(v.disk, v.sb, c) {
      InUseOnBytes(v, c);
    }
    SetBitOnBytes(v.disk[v.sb.BBlock(b)], b % BPB);
  }

  lemma ReleasedOnBytes(v: View, b: nat)
    requires v.Shape() && b < v.sb.size && InUse(v, b)
    ensures GaveBlock(v.disk, Released(v, b), v.sb, b)
  {
    hide NatBit, BitAdded, ClearBit;
    MapFits(v.sb, b);
    ClearBitOnBytes(v.disk[v.sb.BBlock(b)], b % BPB);
  }

  /** bfree after balloc: every block but b is again what it was. */
  lemma FreeUndoesAlloc(d: Disk, d2: Disk, d3: Disk, sb: Super, b: nat)
    requires sb.Ok() && |d| == sb.size && b >= sb.datastart
    requires TookBlock(d, d2, sb, b) && GaveBlock(d2, d3, sb, b)
    ensures d3 == d[b := d3[b]] && forall i | 0 <= i < 512 :: d3[b][i] == 0
  {
    hide MapBit;
    var m := sb.bmapstart + b / 4096;
    assert b / BPB <= sb.size / BPB;
    assert d3[m] == d[m];
  }

  // ---- Inode records ----

  /** struct dinode at offset at: type and major, minor and nlink, the size at byte 8, the addresses from byte 12 on. */
  ghost predicate Dinode(b: Block, at: nat, ip: Inode)
    requires at + 64 <= 512 && |ip.meta| == 2 && |ip.addrs| == 13
  {
    && WordAt(b, at, ip.meta[0]) && WordAt(b, at + 4, ip.meta[1]) && WordAt(b, at + 8, ip.size)
    && forall k: nat | k < 13 :: WordAt(b, at + 12 + 4 * k, ip.addrs[k])
  }

  lemma RecordFits(sb: Super, i: nat)
    requires sb.Ok() && i < sb.ninodes
    ensures sb.inodestart + i / 8 < sb.bmapstart && i % 8 * 64 + 64 <= 512
  {
    assert i / IPB <= sb.ninodes / IPB;
  }

  lemma DiskWordOnBytes(v: View, i: nat, k: nat, x: Word)
    requires v.Shape() && i < v.sb.ninodes && k < DWORDS
    ensures v.sb.inodestart + i / 8 < v.sb.size && i % 8 * 64 + 64 <= 512
    ensures DiskWord(v, i, k) == x <==> WordAt(v.disk[v.sb.inodestart + i / 8], i % 8 * 64 + 4 * k, x)
  {
    RecordFits(v.sb, i);
    WordOnBytes(v.disk[v.sb.IBlock(i)], i % IPB * DWORDS + k, x);
    assert 4 * (i % IPB * DWORDS + k) == i % 8 * 64 + 4 * k;
  }

  /** The record is current exactly if the 64 bytes that fs.h gives inode inum hold its fields. */
  lemma SyncedOnBytes(v: View)
    requires v.Shape()
    ensures v.sb.inodestart + v.ip.inum / 8 < v.sb.size && v.ip.inum % 8 * 64 + 64 <= 512
    ensures Synced(v) <==> Dinode(v.disk[v.sb.inodestart + v.ip.inum / 8], v.ip.inum % 8 * 64, v.ip)
  {
    hide WordAt, DiskWord;
    var b, at := v.disk[v.sb.IBlock(v.ip.inum)], v.ip.inum % 8 * 64;
    RecordFits(v.sb, v.ip.inum);
    forall k: nat | k < DWORDS ensures SyncedAt(v, k) <==> WordAt(b, at + 4 * k, v.ip.Words()[k]) {
      DiskWordOnBytes(v, v.ip.inum, k, v.ip.Words()[k]);
    }
    assert v.ip.Words()[0] == v.ip.meta[0] && v.ip.Words()[1] == v.ip.meta[1] && v.ip.Words()[2] == v.ip.size;
    if Dinode(b, at, v.ip) {
      forall k: nat | k < DWORDS ensures SyncedAt(v, k) {
        if k >= 3 {
          assert v.ip.Words()[k] == v.ip.addrs[k - 3] && at + 12 + 4 * (k - 3) == at + 4 * k;
        }
      }
    }
    if Synced(v) {
      assert SyncedAt(v, 0) && SyncedAt(v, 1) && SyncedAt(v, 2);
      forall k: nat | k < 13 ensures WordAt(b, at + 12 + 4 * k, v.ip.addrs[k]) {
        assert SyncedAt(v, 3 + k) && v.ip.Words()[3 + k] == v.ip.addrs[k] && at + 4 * (3 + k) == at + 12 + 4 * k;
      }
    }
  }

  /**
   A block pointer of an inode other than the one in memory, on the bytes of its record, or of
   the indirect block a whose number the record's last four bytes hold.
   */
  lemma PointerOnBytes(v: View, i: nat, s: nat) returns (a: Word)
    requires v.Shape() && i < v.sb.ninodes && i != v.ip.inum && s < SLOTS
    ensures v.sb.inodestart + i / 8 < v.sb.size && i % 8 * 64 + 64 <= 512
    ensures WordAt(v.disk[v.sb.inodestart + i / 8], i % 8 * 64 + 60, a)
    ensures s <= 12 ==> WordAt(v.disk[v.sb.inodestart + i / 8], i % 8 * 64 + 12 + 4 * s, SlotOf(v, i, s))
    ensures s > 12 && 0 < a < v.sb.size ==> WordAt(v.disk[a], 4 * (s - 13), SlotOf(v, i, s))
    ensures s > 12 && !(0 < a < v.sb.size) ==> SlotOf(v, i, s) == 0
  {
    hide WordAt;
    a := SlotOf(v, i, 12);
    DiskWordOnBytes(v, i, 15, a);
    if s <= 12 {
      DiskWordOnBytes(v, i, 3 + s, SlotOf(v, i, s));
      assert i % 8 * 64 + 4 * (3 + s) == i % 8 * 64 + 12 + 4 * s;
    } else if 0 < a < v.sb.size {
      WordOnBytes(v.disk[a], s - 13, SlotOf(v, i, s));
    }
  }

  /** File block bn of the inode in memory: one of its twelve direct addresses, or a word of its indirect block. */
  lemma FileBlockOnBytes(v: View, bn: nat)
    requires v.Shape() && bn < MAXFILE && v.cut == 0
    ensures bn < 12 ==> DataBlock(v, bn) == v.ip.addrs[bn]
    ensures bn >= 12 && 0 < v.ip.addrs[12] < v.sb.size ==>
              WordAt(v.disk[v.ip.addrs[12]], 4 * (bn - 12), DataBlock(v, bn))
    ensures bn >= 12 && v.ip.addrs[12] == 0 ==> DataBlock(v, bn) == 0
  {
    if bn >= 12 && 0 < v.ip.addrs[12] < v.sb.size {
      WordOnBytes(v.disk[v.ip.addrs[12]], bn - 12, DataBlock(v, bn));
    }
  }

  /** Byte k of the file is byte k % 512 of file block k / 512. */
  lemma ContentOnBytes(v: View, n: nat, k: nat)
    requires v.Shape() && k < n <= MAXFILE * BSIZE && v.cut == 0
    ensures 0 < DataBlock(v, k / 512) < v.sb.size ==> Content(v, n)[k] == v.disk[DataBlock(v, k / 512)][k % 512]
    ensures DataBlock(v, k / 512) == 0 ==> Content(v, n)[k] == 0
  {
    hide DataBlock;
    assert Content(v, n)[k] == ByteAt(v, k);
  }
}
