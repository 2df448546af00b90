/**
 A chunk of filewrite that logs one block more than begin_op has reserved for it.

 The disk has 16400 blocks and so five blocks of free map. Files fill it but for five
 blocks, one behind each map block. Inode 1 has a size but no blocks, and the chunk starts
 inside its hole: it takes all five blocks, four for data and one for the indirect block,
 and each of them changes another block of the map.
 */
module WideChunk {
  import opened Blocks
  import opened Collections
  import opened Inodes
  import opened Contents
  import opened FileMap
  import opened WriteSteps
  import opened FileSys
  import Mkfs
  import Recovery

  /** The layout mkfs computes for 16400 blocks. */
  function Wide(): Super {
    Super(16400, 200, 32, 58, 63)
  }

  const FILE_SIZE: nat := NDIRECT * BSIZE + 1

  predicate Free(b: nat) {
    63 <= b < 16400 && (b == 63 || b % BPB == 0)
  }

  predicate Taken(b: nat) {
    63 <= b < 16400 && !Free(b)
  }

  /** Pointer s of inode i: inode 2 + q has the 141 blocks from 63 + 141 q on, but for free ones. */
  function Pointer(i: nat, s: nat): Word {
    if i >= 2 && Taken(63 + SLOTS * (i - 2) + s) then 63 + SLOTS * (i - 2) + s else 0
  }

  function FileInode(): Inode {
    Inode(1, [2, 0x1_0000], FILE_SIZE, [0, 0, 0, 0, 0, 0, 0, 0, 0, 0, 0, 0, 0])
  }

  /** Word k of the record of inode i. */
  function RecordWord(i: nat, k: nat): Word
    requires k < DWORDS
  {
    if i == 1 then FileInode().Words()[k]
    else if i < 2 || i > 117 then 0
    else if k < 3 then [2, 0x1_0000, MAXFILE * BSIZE][k]
    else Pointer(i, k - 3)
  }

  function RecordWords(q: nat, n: nat): (ws: seq<Word>)
    ensures |ws| == n && forall j | 0 <= j < n :: ws[j] == RecordWord(q * IPB + j / DWORDS, j % DWORDS)
  {
    if n == 0 then [] else RecordWords(q, n - 1) + [RecordWord(q * IPB + (n - 1) / DWORDS, (n - 1) % DWORDS)]
  }

  function EntryWords(i: nat, n: nat): (ws: seq<Word>)
    ensures |ws| == n && forall j | 0 <= j < n :: ws[j] == Pointer(i, 13 + j)
  {
    if n == 0 then [] else EntryWords(i, n - 1) + [Pointer(i, 13 + n - 1)]
  }

  function BlockAt(b: nat): Block {
    if 32 <= b < 58 then PutWords(Zeros(), 0, RecordWords(b - 32, WORDS))
    else if 58 <= b < 63 then ClearBit(Mkfs.Marked(BPB), if b == 58 then 63 else 0)
    else if b >= 63 && (b - 63) % SLOTS == NDIRECT then PutWords(Zeros(), 0, EntryWords(2 + (b - 63) / SLOTS, WORDS))
    else Zeros()
  }

  function WideDisk(n: nat): (d: Disk)
    ensures |d| == n && forall x | 0 <= x < n :: d[x] == BlockAt(x)
  {
    if n == 0 then [] else WideDisk(n - 1) + [BlockAt(n - 1)]
  }

  function WideView(): (v: View)
    ensures v.Shape() && v.sb == Wide() && v.ip == FileInode() && v.cut == 0
    ensures forall x | 0 <= x < 16400 :: v.disk[x] == BlockAt(x)
  {
    View(Wide(), WideDisk(16400), FileInode(), 0)
  }

  ghost function WideOwners(): map<nat, Owner> {
    map b: nat | b < 16400 && Taken(b) :: Owner(2 + (b - 63) / SLOTS, (b - 63) % SLOTS)
  }

  // ---- The file system is sound ----

  /** Which inode and which pointer of it lead to block 63 + SLOTS q + s. */
  lemma Place(q: nat, s: nat)
    requires s < SLOTS
    ensures (SLOTS * q + s) / SLOTS == q && (SLOTS * q + s) % SLOTS == s
  {
  }

  lemma RecordPlace(i: nat, k: nat)
    requires k < DWORDS
    ensures (i / IPB) * IPB + (i % IPB * DWORDS + k) / DWORDS == i && (i % IPB * DWORDS + k) % DWORDS == k
  {
  }

  lemma RecordAt(i: nat, k: nat)
    requires i < 200 && k < DWORDS
    ensures DiskWord(WideView(), i, k) == RecordWord(i, k)
  {
    hide WideView, RecordWord, GetWord, PutWords, Zeros, Mkfs.Marked;
    RecordPlace(i, k);
    var b := i / IPB + 32;
    assert WideView().disk[b] == BlockAt(b);
  }

  lemma FreeBlocks(b: nat)
    ensures Free(b) <==> b in FREE
    ensures Free(b) ==> (b - 63) % SLOTS != NDIRECT && BlockAt(b) == Zeros()
  {
  }

  lemma PointerIs(i: nat, s: nat)
    requires i < 200 && s < SLOTS
    ensures SlotOf(WideView(), i, s) == Pointer(i, s)
  {
    hide WideView, GetWord, PutWords, Zeros, Mkfs.Marked, Free, WideDisk;
    var v := WideView();
    var at := if s <= NDIRECT then s else NDIRECT;
    if i != 1 {
      RecordAt(i, 3 + at);
      LastInode(i, at);
    }
    if s > NDIRECT && i >= 2 {
      EntryIs(i, s);
    }
  }

  lemma LastInode(i: nat, s: nat)
    requires s < SLOTS && s <= NDIRECT
    ensures i != 1 ==> RecordWord(i, 3 + s) == Pointer(i, s)
  {
  }

  /** Behind the indirect block. */
  lemma EntryIs(i: nat, s: nat)
    requires 2 <= i < 200 && NDIRECT < s < SLOTS
    ensures var a := Pointer(i, NDIRECT);
            if a == 0 then Pointer(i, s) == 0
            else a < 16400 && GetWord(WideView().disk[a], s - 13) == Pointer(i, s)
  {
    hide WideView, GetWord, PutWords, Zeros, Mkfs.Marked, WideDisk;
    var a := 63 + SLOTS * (i - 2) + NDIRECT;
    Place(i - 2, NDIRECT);
    FreeBlocks(a);
    if Pointer(i, NDIRECT) != 0 {
      assert WideView().disk[a] == BlockAt(a);
    }
  }

  lemma WideOk()
    ensures FileOk(WideView(), WideOwners()) && Synced(WideView())
  {
    hide WideView, SlotOf, InUse, DiskWord;
    var v, own := WideView(), WideOwners();
    forall i: nat, s: nat | i < v.sb.ninodes && s < SLOTS ensures SlotOk(v, own, i, s) {
      PointerIs(i, s);
      if i >= 2 {
        Place(i - 2, s);
      }
    }
    forall b | b in own ensures OwnerOk(v, own, b) {
      PointerIs(own[b].inum, own[b].slot);
    }
    forall b: nat | b < v.sb.size ensures BitOk(v, own, b) {
      BitIs(b);
    }
    forall k: nat | k < DWORDS ensures SyncedAt(v, k) {
      RecordAt(1, k);
    }
  }

  lemma BitIs(b: nat)
    requires b < 16400
    ensures InUse(WideView(), b) <==> !Free(b)
  {
    hide WideView, Mkfs.Marked, Bit, PutWords, Zeros;
    var q := b / BPB;
    assert WideView().disk[58 + q] == BlockAt(58 + q);
  }

  const FREE: set<nat> := {63, 4096, 8192, 12288, 16384}

  lemma FiveFree()
    ensures |FREE| == 5
  {
    var s: set<nat> := {63, 4096};
    assert |s| == 2 && |s + {8192}| == 3 && |s + {8192, 12288}| == 4;
    assert FREE == s + {8192, 12288} + {16384};
  }

  lemma Owned(b: nat)
    ensures b in WideOwners() <==> 63 <= b < 16400 && b !in FREE
  {
    FreeBlocks(b);
  }

  lemma Rest(all: set<nat>, s: set<nat>)
    requires s <= all
    ensures |all - s| + |s| == |all|
  {
    assert all == (all - s) + s;
  }

  lemma FiveLeft()
    ensures |WideOwners()| + 5 == Capacity(Wide())
  {
    hide WideOwners, BlockRange, FREE;
    var keys, all := WideOwners().Keys, BlockRange(63, 16337);
    forall b: nat ensures b in keys <==> b in all - FREE {
      Owned(b);
    }
    InRange(all);
    FiveFree();
    Rest(all, FREE);
    assert keys == all - FREE && |keys| == |WideOwners()|;
  }

  lemma InRange(all: set<nat>)
    requires forall x :: x in all <==> 63 <= x < 16400
    ensures FREE <= all
  {
  }

  // ---- The write ----

  /** How the write of src at the end of the file leaves it. */
  ghost predicate ChunkWritten(w: View, own: map<nat, Owner>, src: seq<Byte>) {
    && |src| == CHUNK && (forall k | 0 <= k < |src| :: src[k] != 0)
    && Wrote(WideView(), w, own, FILE_SIZE, src)
  }

  /** A block that was taken is still its owner's. */
  lemma TakenStays(w: View, own: map<nat, Owner>, b: nat)
    requires Inv(w, own) && OthersKept(WideView(), w) && Taken(b)
    ensures b in own && own[b].inum >= 2
  {
    hide WideView, Free, SlotOf;
    var i, s := 2 + (b - 63) / SLOTS, (b - 63) % SLOTS;
    assert i < 200;
    PointerIs(i, s);
    assert SlotKept(WideView(), w, i, s);
    assert SlotOk(w, own, i, s);
  }

  /** So the blocks behind the pointers of inode 1 are among those that were free. */
  lemma NewBlock(w: View, own: map<nat, Owner>, s: nat)
    requires Inv(w, own) && OthersKept(WideView(), w) && s < SLOTS && SlotOf(w, 1, s) != 0
    ensures var b := SlotOf(w, 1, s); b in FREE && b in own && own[b] == Owner(1, s) && b < 16400 && InUse(w, b)
  {
    hide WideView, SlotOf, InUse, OthersKept, FREE, Free;
    KeptShape(WideView(), w);
    var b := SlotOf(w, 1, s);
    assert SlotOk(w, own, 1, s) && BitOk(w, own, b);
    FreeBlocks(b);
    if Taken(b) {
      TakenStays(w, own, b);
    }
  }

  lemma MapChanged(w: View, t: set<nat>, b: nat)
    requires w.Shape() && w.sb == Wide() && OnlyBlocks(WideView(), w, t) && b in FREE && b < 16400 && InUse(w, b)
    ensures 58 + b / BPB in t
  {
    hide WideView, Bit, BlockAt;
    FreeBlocks(b);
    BitIs(b);
  }

  lemma ContentsChanged(w: View, t: set<nat>, b: nat)
    requires OnlyBlocks(WideView(), w, t) && b in FREE && b < |w.disk| && w.disk[b] != Zeros()
    ensures b in t
  {
    hide WideView;
    FreeBlocks(b);
    assert WideView().disk[b] == BlockAt(b);
  }

  /** The four data blocks hold bytes of src, and the indirect block points to them. */
  lemma BlocksFilled(w: View, own: map<nat, Owner>, src: seq<Byte>, s: nat)
    requires ChunkWritten(w, own, src) && NDIRECT <= s <= NDIRECT + 4
    ensures w.Shape() && SlotOf(w, 1, s) != 0 && (SlotOf(w, 1, s) < |w.disk| ==> w.disk[SlotOf(w, 1, s)] != Zeros())
  {
    hide WideView, OthersKept, Inv, Dense, Synced, Splice, Zeros;
    InvShape(w, own);
    if s == NDIRECT {
      DataThere(w, own, src, NDIRECT);
      EntryNotZero(w);
    } else {
      DataThere(w, own, src, s - 1);
    }
  }

  /** The first byte that the write has in file block bn. */
  function ByteIn(bn: nat): (k: nat)
    requires NDIRECT <= bn < NDIRECT + 4
    ensures FILE_SIZE <= k < FILE_SIZE + CHUNK && k / BSIZE == bn
  {
    if bn == NDIRECT then FILE_SIZE else bn * BSIZE
  }

  lemma DataThere(w: View, own: map<nat, Owner>, src: seq<Byte>, bn: nat)
    requires ChunkWritten(w, own, src) && NDIRECT <= bn < NDIRECT + 4
    ensures w.Shape() && w.ip.inum == 1 && w.ip.addrs[NDIRECT] != 0
    ensures 0 < DataBlock(w, bn) < |w.disk| && w.disk[DataBlock(w, bn)] != Zeros()
  {
    hide WideView, Wrote, DataBlock, ByteAt, Zeros;
    ByteWritten(w, own, src, ByteIn(bn));
    NotZero(w, bn, ByteIn(bn));
  }

  lemma ByteWritten(w: View, own: map<nat, Owner>, src: seq<Byte>, k: nat)
    requires ChunkWritten(w, own, src) && FILE_SIZE <= k < FILE_SIZE + CHUNK
    ensures w.Shape() && w.ip.inum == 1 && w.ip.addrs[NDIRECT] != 0
    ensures k < MAXFILE * BSIZE && ByteAt(w, k) == src[k - FILE_SIZE]
  {
    hide WideView, OthersKept, Inv, Dense, Synced, ByteAt, Fills, WordsKept, PointersThere, PointersKept;
    InvShape(w, own);
    KeptShape(WideView(), w);
    FilledIndirect(w);
    assert Content(w, w.ip.size)[k] == ByteAt(w, k);
  }

  lemma NotZero(w: View, bn: nat, k: nat)
    requires w.Shape() && bn < MAXFILE && k < MAXFILE * BSIZE && k / BSIZE == bn && ByteAt(w, k) != 0
    ensures 0 < DataBlock(w, bn) < |w.disk| && w.disk[DataBlock(w, bn)] != Zeros()
  {
    hide DataBlock;
  }

  lemma FilledIndirect(w: View)
    requires w.Shape() && Fills(WideView(), w, FILE_SIZE / BSIZE, TopBlock(FILE_SIZE, CHUNK))
    ensures w.ip.addrs[NDIRECT] != 0
  {
    hide WideView;
    assert FILE_SIZE / BSIZE == 12 && CHUNK == 3 * BSIZE && TopBlock(FILE_SIZE, CHUNK) == 16;
  }

  lemma EntryNotZero(w: View)
    requires w.Shape() && w.ip.inum == 1 && w.ip.addrs[NDIRECT] != 0 && DataBlock(w, NDIRECT) != 0
    ensures SlotOf(w, 1, NDIRECT) < |w.disk| && w.disk[SlotOf(w, 1, NDIRECT)] != Zeros()
  {
    hide GetWord, Zeros;
  }

  /** The inode's new size is on the disk. */
  lemma RecordChanged(w: View, own: map<nat, Owner>, src: seq<Byte>, t: set<nat>)
    requires ChunkWritten(w, own, src) && OnlyBlocks(WideView(), w, t)
    ensures 32 in t
  {
    hide WideView, Inv, OthersKept, Dense, Fills, Content, Splice, GetWord;
    KeptShape(WideView(), w);
    WideOk();
    assert SyncedAt(w, 2) && SyncedAt(WideView(), 2);
    assert w.ip.Words()[2] == w.ip.size && WideView().ip.Words()[2] == FILE_SIZE;
    assert IPB > 1 && w.sb.IBlock(1) == 32;
  }

  lemma AllFive(c: set<nat>)
    requires c <= FREE && |c| >= 5
    ensures c == FREE
  {
    hide FREE;
    FiveFree();
    if x :| x in FREE && x !in c {
      SubsetCard(c, FREE - {x});
    }
  }

  /** Such a write changes eleven blocks at least, whatever it has logged. */
  lemma ElevenBlocks(w: View, own: map<nat, Owner>, src: seq<Byte>, t: set<nat>)
    requires ChunkWritten(w, own, src) && OnlyBlocks(WideView(), w, t)
    ensures |t| >= Recovery.MAXOPBLOCKS + 1
  {
    hide WideView, Wrote, OnlyBlocks, FREE, SlotOf, InUse;
    var c := NewBlocks(w, own, src);
    forall b | b in FREE ensures b in t && 58 + b / BPB in t {
      var s: nat :| NDIRECT <= s <= NDIRECT + 4 && Behind(w, s, b);
      BlocksFilled(w, own, src, s);
      WroteFile(WideView(), w, own, FILE_SIZE, src);
      KeptShape(WideView(), w);
      NewBlock(w, own, s);
      MapChanged(w, t, b);
      ContentsChanged(w, t, b);
    }
    RecordChanged(w, own, src, t);
    CountEleven(t);
  }

  /** Pointer s of inode 1 leads to b. */
  ghost predicate Behind(w: View, s: nat, b: nat) {
    w.Shape() && 1 < w.sb.ninodes && s < SLOTS && SlotOf(w, 1, s) == b
  }

  /** The five pointers lead to five blocks, so to all that were free. */
  lemma NewBlocks(w: View, own: map<nat, Owner>, src: seq<Byte>) returns (c: set<nat>)
    requires ChunkWritten(w, own, src)
    ensures c == FREE && forall b | b in FREE :: exists s: nat :: NDIRECT <= s <= NDIRECT + 4 && Behind(w, s, b)
  {
    hide WideView, Wrote, FREE, SlotOf, InUse, Inv, OthersKept;
    WroteFile(WideView(), w, own, FILE_SIZE, src);
    KeptShape(WideView(), w);
    c := {};
    var n := 0;
    while n < 5
      invariant 0 <= n <= 5 && |c| == n && c <= FREE
      invariant forall b | b in c :: b in own && own[b].slot < NDIRECT + n
      invariant forall b | b in c :: exists s: nat :: NDIRECT <= s <= NDIRECT + 4 && Behind(w, s, b)
    {
      BlocksFilled(w, own, src, NDIRECT + n);
      NewBlock(w, own, NDIRECT + n);
      var b := SlotOf(w, 1, NDIRECT + n);
      assert Behind(w, NDIRECT + n, b);
      c := c + {b};
      n := n + 1;
    }
    AllFive(c);
  }

  const MAPS: set<nat> := {58, 59, 60, 61, 62}

  lemma FiveMaps()
    ensures |MAPS| == 5
  {
    var s: set<nat> := {58, 59};
    assert |s| == 2 && |s + {60}| == 3 && |s + {60, 61}| == 4;
    assert MAPS == s + {60, 61} + {62};
  }

  lemma MapsIn(t: set<nat>)
    requires forall b | b in FREE :: 58 + b / BPB in t
    ensures MAPS <= t
  {
    assert 63 in FREE && 4096 in FREE && 8192 in FREE && 12288 in FREE && 16384 in FREE;
    assert 58 + 63 / BPB == 58 && 58 + 4096 / BPB == 59 && 58 + 8192 / BPB == 60;
    assert 58 + 12288 / BPB == 61 && 58 + 16384 / BPB == 62;
  }

  lemma CountEleven(t: set<nat>)
    requires 32 in t && forall b | b in FREE :: b in t && 58 + b / BPB in t
    ensures |t| >= 11
  {
    hide FREE, MAPS;
    MapsIn(t);
    FiveMaps();
    MapsLie();
    Disjoint(MAPS);
    SubsetCard(FREE + MAPS + {32}, t);
  }

  lemma MapsLie()
    ensures forall x | x in MAPS :: 58 <= x < 63
  {
  }

  lemma Disjoint(maps: set<nat>)
    requires |maps| == 5 && forall x | x in maps :: 58 <= x < 63
    ensures |FREE + maps + {32}| == 11
  {
    FiveFree();
    assert FREE !! maps && 32 !in FREE + maps;
    assert |FREE + maps| == 10;
  }

  /** And filewrite does it: its chunk gets its five blocks and logs eleven. */
  method OneBlockTooMany(src: seq<Byte>) returns (fs: Fs, ok: bool, r: int)
    requires |src| == CHUNK && forall k | 0 <= k < |src| :: src[k] != 0
    ensures ok && r == CHUNK && fresh(fs) && |fs.logged| == Recovery.MAXOPBLOCKS + 1
  {
    hide WideView, Wrote, Inv, OthersKept, OnlyBlocks, InFs, ByteCost;
    var v := WideView();
    WideOk();
    FiveLeft();
    FiveMissing();
    fs := new Fs(v.sb, v.disk, v.ip, WideOwners());
    ok, r := fs.WriteChunk(src, FILE_SIZE);
    ElevenBlocks(fs.V(), fs.own, src, fs.logged);
  }

  lemma FiveMissing()
    ensures ByteCost(WideView(), FILE_SIZE, CHUNK) <= 5
  {
    hide WideView;
    assert FILE_SIZE / BSIZE == 12 && CHUNK == 3 * BSIZE && TopBlock(FILE_SIZE, CHUNK) == 16;
    CostBound(WideView(), 12, 16);
  }
}
