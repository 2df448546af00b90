/**
 The log under the file system: a crash during the transaction of a write leaves either
 the whole old file or the whole new one, with every block accounted for. What commits is
 the blocks that writei logged, with the contents that writei gave them.
 */
module CrashFs {
  import opened Blocks
  import opened Collections
  import opened Inodes
  import opened Contents
  import opened FileMap
  import opened WriteSteps
  import opened Recovery
  import RawWrites
  import FileSys

  /** The log lies before the inodes, as mkfs lays the disk out. */
  predicate LogBeforeInodes(g: Geometry, sb: Super) {
    g.start + g.size <= sb.inodestart
  }

  lemma SameSlot(v: View, e: Disk, g: Geometry, i: nat, s: nat)
    requires v.Shape() && SameHome(e, g, v.disk) && LogBeforeInodes(g, v.sb) && i < v.sb.ninodes && s < SLOTS
    requires AddrOf(v, i, NDIRECT) == 0 || AddrOf(v, i, NDIRECT) >= v.sb.datastart
    ensures v.(disk := e).Shape() && SlotOf(v.(disk := e), i, s) == SlotOf(v, i, s)
  {
    var w := v.(disk := e);
    assert i / IPB <= v.sb.ninodes / IPB;
    assert e[v.sb.IBlock(i)] == v.disk[v.sb.IBlock(i)];
    assert AddrOf(w, i, NDIRECT) == AddrOf(v, i, NDIRECT);
  }

  lemma SameHomeInv(v: View, own: map<nat, Owner>, e: Disk, g: Geometry)
    requires Inv(v, own) && SameHome(e, g, v.disk) && LogBeforeInodes(g, v.sb)
    ensures Inv(v.(disk := e), own)
  {
    var w := v.(disk := e);
    forall i: nat, s: nat | i < v.sb.ninodes && s < SLOTS
      ensures SlotOf(w, i, s) == SlotOf(v, i, s) && SlotOk(w, own, i, s)
    {
      assert SlotOk(v, own, i, NDIRECT) && SlotOk(v, own, i, s);
      SameSlot(v, e, g, i, s);
    }
    forall b | b in own ensures OwnerOk(w, own, b) {
      assert OwnerOk(v, own, b);
    }
    forall b: nat | b < v.sb.size ensures BitOk(w, own, b) {
      LayoutBitmap(v, b);
      assert e[v.sb.BBlock(b)] == v.disk[v.sb.BBlock(b)];
      assert BitOk(v, own, b);
    }
  }

  /** On disk e the file is sound, has the bytes and holes it has on v, and its inode is as current as on v. */
  ghost predicate SameFile(v: View, own: map<nat, Owner>, e: Disk) {
    && FileOk(v, own) && FileOk(v.(disk := e), own)
    && Content(v.(disk := e), v.ip.size) == Content(v, v.ip.size) && Holes(v, v.(disk := e), 0, 0)
    && WordsKept(v, v.(disk := e)) && (Synced(v.(disk := e)) <==> Synced(v))
  }

  /** Nothing in the file system's invariants or in the file depends on the log area. */
  lemma SameHomeSameFile(v: View, own: map<nat, Owner>, e: Disk, g: Geometry)
    requires FileOk(v, own) && SameHome(e, g, v.disk) && LogBeforeInodes(g, v.sb)
    ensures SameFile(v, own, e)
  {
    var w := v.(disk := e);
    SameHomeInv(v, own, e, g);
    SameHomeBytes(v, own, e, g);
    SameContent(v, w, v.ip.size);
    forall k: nat | k < DWORDS ensures WordKept(v, w, v.ip.inum, k) && (SyncedAt(w, k) <==> SyncedAt(v, k)) {
      assert v.ip.inum / IPB <= v.sb.ninodes / IPB;
    }
  }

  lemma SameHomeBytes(v: View, own: map<nat, Owner>, e: Disk, g: Geometry)
    requires Inv(v, own) && SameHome(e, g, v.disk) && LogBeforeInodes(g, v.sb)
    ensures var w := v.(disk := e); Holes(v, w, 0, 0) && BytesKept(v, w)
  {
    var w := v.(disk := e);
    assert SlotOk(v, own, v.ip.inum, NDIRECT);
    forall c: nat | c < MAXFILE ensures HoleAt(v, w, 0, 0, c) {
      SameSlot(v, e, g, v.ip.inum, DataSlot(c));
    }
    forall k: nat | k < MAXFILE * BSIZE ensures ByteKept(v, w, k) {
      SameSlot(v, e, g, v.ip.inum, DataSlot(k / BSIZE));
      assert SlotOk(v, own, v.ip.inum, DataSlot(k / BSIZE));
    }
  }

  // ---- The inode after a restart ----

  /** The inode as ilock reads it from its record on the disk. */
  function DiskInode(v: View): Inode
    requires v.Shape()
  {
    Inode(v.ip.inum, [DiskWord(v, v.ip.inum, 0), DiskWord(v, v.ip.inum, 1)], DiskWord(v, v.ip.inum, 2),
          seq(NDIRECT + 1, k requires 0 <= k <= NDIRECT => DiskWord(v, v.ip.inum, 3 + k)))
  }

  /** A restart loses nothing of the inode exactly when its record is current. */
  lemma SyncedMeans(v: View)
    requires v.Shape()
    ensures Synced(v) <==> DiskInode(v) == v.ip
  {
    var d := DiskInode(v);
    assert |d.Words()| == |v.ip.Words()| == DWORDS;
    forall k: nat | k < DWORDS ensures d.Words()[k] == DiskWord(v, v.ip.inum, k) {
    }
    if Synced(v) {
      forall k: nat | k < DWORDS ensures d.Words()[k] == v.ip.Words()[k] {
        assert SyncedAt(v, k);
      }
      SameWords(d, v.ip);
    } else {
      var k: nat :| k < DWORDS && !SyncedAt(v, k);
    }
  }

  lemma SameWords(a: Inode, b: Inode)
    requires |a.meta| == |b.meta| == 2 && |a.addrs| == |b.addrs| == NDIRECT + 1 && a.inum == b.inum
    requires forall k: nat | k < DWORDS :: a.Words()[k] == b.Words()[k]
    ensures a == b
  {
    assert a.Words() == b.Words();
    assert a.meta == a.Words()[..2] && b.meta == b.Words()[..2];
    assert a.size == a.Words()[2] && b.size == b.Words()[2];
    assert a.addrs == a.Words()[3..] && b.addrs == b.Words()[3..];
  }

  /**
   A write into a hole that neither grows the file nor finds all the inode's pointers there is
   forgotten by a restart, although it has committed: the record on the disk is the old one,
   and with it some block of the disk is in use that no inode points to, so that no
   assignment of owners is right.
   */
  lemma HoleWriteForgotten(v0: View, w: View, own: map<nat, Owner>, off: nat, src: seq<Byte>, own2: map<nat, Owner>)
    requires Wrote(v0, w, own, off, src) && Synced(v0) && off + |src| <= v0.ip.size
    requires !PointersThere(v0, off / BSIZE, TopBlock(off, |src|))
    ensures DiskInode(w) == v0.ip && !Inv(w.(ip := DiskInode(w)), own2)
  {
    TopWithin(off, |src|);
    var s := FilledPointer(v0, w, off / BSIZE, TopBlock(off, |src|));
    StaysForgotten(v0, w, own, s, own2);
  }

  /** The same for a read that fills a hole: it committed with the operation on whose account it was logged. */
  lemma HoleReadForgotten(v: View, u: View, own: map<nat, Owner>, off: nat, n: nat, own2: map<nat, Owner>)
    requires FileSys.WasRead(v, u, off, n) && FileOk(u, own) && Synced(v) && off + n <= MAXFILE * BSIZE
    requires !PointersThere(v, off / BSIZE, TopBlock(off, n))
    ensures DiskInode(u) == v.ip && !Inv(u.(ip := DiskInode(u)), own2)
  {
    hide Inv, BytesKept, OthersKept;
    GrewShape(v, u);
    InvShape(u, own);
    TopWithin(off, n);
    var s := FilledPointer(v, u, off / BSIZE, TopBlock(off, n));
    StaysForgotten(v, u, own, s, own2);
  }

  /**
   A read that fills a hole, and then a write inside the file, as dirlink does: the write finds
   the pointer there and does not update the record either. Whatever it wrote is forgotten.
   */
  lemma ReadThenWriteForgotten(v: View, u: View, own: map<nat, Owner>, off: nat, n: nat,
                               w: View, own1: map<nat, Owner>, at: nat, src: seq<Byte>, own2: map<nat, Owner>)
    requires FileSys.WasRead(v, u, off, n) && FileOk(u, own) && Synced(v) && off + n <= MAXFILE * BSIZE
    requires !PointersThere(v, off / BSIZE, TopBlock(off, n))
    requires Wrote(u, w, own1, at, src) && at + |src| <= u.ip.size
    ensures !Synced(w) && DiskInode(w) == v.ip && !Inv(w.(ip := DiskInode(w)), own2)
  {
    hide Inv, BytesKept, OthersKept, Content, Splice, Fills, Dense, Synced, WordsKept, PointersKept, DiskInode;
    GrewShape(v, u);
    InvShape(u, own);
    InvShape(w, own1);
    TopWithin(off, n);
    var s := FilledPointer(v, u, off / BSIZE, TopBlock(off, n));
    GrewKeeps(v, u);
    WroteKeeps(u, w, own1, at, src);
    PointersKeptTwice(v, u, w);
    WordsKeptTwice(v, u, w);
    PointerStays(u, w, s);
    StaysForgotten(v, w, own1, s, own2);
    SyncedMeans(w);
  }

  lemma GrewKeeps(v: View, u: View)
    requires Grew(v, u)
    ensures v.Shape() && u.Shape() && u.sb == v.sb && u.ip.inum == v.ip.inum && WordsKept(v, u) && PointersKept(v, u)
  {
  }

  lemma WroteKeeps(u: View, w: View, own: map<nat, Owner>, at: nat, src: seq<Byte>)
    requires Wrote(u, w, own, at, src) && at + |src| <= u.ip.size
    ensures u.Shape() && w.Shape() && w.sb == u.sb && w.ip.inum == u.ip.inum && WordsKept(u, w) && PointersKept(u, w)
  {
  }

  lemma PointerStays(u: View, w: View, s: nat)
    requires u.Shape() && w.Shape() && PointersKept(u, w) && s <= NDIRECT && u.ip.addrs[s] != 0
    ensures w.ip.addrs[s] == u.ip.addrs[s]
  {
    assert PointerKept(u, w, s);
  }

  /** A pointer of the inode that was missing for the range is there once the range is filled. */
  lemma FilledPointer(v: View, w: View, a: nat, b: nat) returns (s: nat)
    requires v.Shape() && Fills(v, w, a, b) && b <= MAXFILE && !PointersThere(v, a, b)
    ensures s <= NDIRECT && v.ip.addrs[s] == 0 && w.Shape() && w.ip.addrs[s] != 0
  {
    var bn: nat :| a <= bn < b && !PointerThere(v, bn);
    s := if bn < NDIRECT then bn else NDIRECT;
    assert HoleAt(v, w, a, b, bn);
  }

  /** Where the record on the disk has stayed behind the inode in memory by a pointer. */
  lemma StaysForgotten(v0: View, w: View, own: map<nat, Owner>, s: nat, own2: map<nat, Owner>)
    requires v0.Shape() && Synced(v0) && Inv(w, own) && w.cut == 0 && v0.sb == w.sb && v0.ip.inum == w.ip.inum
    requires WordsKept(v0, w) && PointersKept(v0, w)
    requires s <= NDIRECT && v0.ip.addrs[s] == 0 && w.ip.addrs[s] != 0
    ensures DiskInode(w) == v0.ip && DiskInode(w) != w.ip && !Inv(w.(ip := DiskInode(w)), own2)
  {
    SyncedMeans(v0);
    OldRecord(v0, w);
    Leaked(v0, w, own, s, own2);
  }

  lemma OldRecord(v: View, w: View)
    requires v.Shape() && w.Shape() && w.sb == v.sb && w.ip.inum == v.ip.inum && WordsKept(v, w)
    ensures DiskInode(w) == DiskInode(v)
  {
    forall k: nat | k < DWORDS ensures DiskWord(w, v.ip.inum, k) == DiskWord(v, v.ip.inum, k) {
      assert WordKept(v, w, v.ip.inum, k);
    }
    assert DiskInode(w).addrs == DiskInode(v).addrs;
  }

  /** Without pointer s, the block behind it is in use and nobody's. */
  lemma Leaked(v0: View, w: View, own: map<nat, Owner>, s: nat, own2: map<nat, Owner>)
    requires v0.Shape() && Inv(w, own) && w.cut == 0 && v0.sb == w.sb && v0.ip.inum == w.ip.inum && PointersKept(v0, w)
    requires s <= NDIRECT && v0.ip.addrs[s] == 0 && w.ip.addrs[s] != 0
    ensures !Inv(w.(ip := v0.ip), own2)
  {
    var u := w.(ip := v0.ip);
    var b := w.ip.addrs[s];
    assert SlotOk(w, own, w.ip.inum, s) && BitOk(w, own, b);
    if Inv(u, own2) {
      assert BitOk(u, own2, b) && OwnerOk(u, own2, b);
      NoPointer(v0, w, own, s, own2[b].inum, own2[b].slot);
    }
  }

  lemma NoPointer(v0: View, w: View, own: map<nat, Owner>, s: nat, i: nat, t: nat)
    requires v0.Shape() && Inv(w, own) && w.cut == 0 && v0.sb == w.sb && v0.ip.inum == w.ip.inum && PointersKept(v0, w)
    requires s <= NDIRECT && v0.ip.addrs[s] == 0 && w.ip.addrs[s] != 0 && i < w.sb.ninodes && t < SLOTS
    ensures SlotOf(w.(ip := v0.ip), i, t) != w.ip.addrs[s]
  {
    assert SlotOk(w, own, w.ip.inum, s) && SlotOk(w, own, i, t);
    assert PointerKept(v0, w, NDIRECT);
    assert t <= NDIRECT ==> PointerKept(v0, w, t);
  }

  // ---- Committing what was written ----

  /** lh lists each block of s once, in any order. */
  ghost predicate Enumerates(lh: seq<nat>, s: set<nat>) {
    Distinct(lh) && forall x :: x in lh <==> x in s
  }

  lemma {:induction false} EnumeratedCount(lh: seq<nat>, s: set<nat>)
    requires Enumerates(lh, s)
    ensures |lh| == |s|
  {
    if lh != [] {
      var n := |lh| - 1;
      assert lh == lh[..n] + [lh[n]];
      EnumeratedCount(lh[..n], s - {lh[n]});
    } else {
      assert s == {};
    }
  }

  /**
   Operations change only blocks that they log, so that committing the new contents of those
   blocks, listed in any order, is what they did: it turns the old disk into the new one.
   */
  lemma CommitIsTheWrite(v0: View, v1: View, logged: set<nat>, lh: seq<nat>)
    requires OnlyBlocks(v0, v1, logged) && Enumerates(lh, logged) && forall x | x in logged :: x < |v0.disk|
    ensures forall i | 0 <= i < |lh| :: lh[i] < |v1.disk|
    ensures UpdateHome(v0.disk, Txn(lh, RawWrites.Gather(v1.disk, lh))) == v1.disk
  {
    forall i | 0 <= i < |lh| ensures lh[i] < |v1.disk| {
      assert lh[i] in logged;
    }
    UpdateHomeAt(v0.disk, Txn(lh, RawWrites.Gather(v1.disk, lh)));
    var r := UpdateHome(v0.disk, Txn(lh, RawWrites.Gather(v1.disk, lh)));
    forall h | 0 <= h < |v1.disk| ensures r[h] == v1.disk[h] {
      if h in lh {
        var i :| 0 <= i < |lh| && lh[i] == h;
      }
    }
  }

  /** What a transaction makes of two disks that agree outside the log. */
  lemma UpdateSameHome(a: Disk, b: Disk, g: Geometry, t: Txn<Block>)
    requires SameHome(a, g, b) && |t.lh| == |t.vals| && Distinct(t.lh)
    ensures SameHome(UpdateHome(a, t), g, UpdateHome(b, t))
  {
    UpdateHomeAt(a, t);
    UpdateHomeAt(b, t);
    forall h | 0 <= h < |a| && !g.InLog(h) ensures UpdateHome(a, t)[h] == UpdateHome(b, t)[h] {
      if h in t.lh {
        var i :| 0 <= i < |t.lh| && t.lh[i] == h;
      }
    }
  }

  /** The log has room for so many blocks. */
  predicate Room(n: nat, g: Geometry) {
    n <= LOGSIZE && n < g.size
  }

  lemma LoggedIsLoggable(lh: seq<nat>, logged: set<nat>, g: Geometry, sb: Super)
    requires Enumerates(lh, logged) && InFs(sb, logged) && LogBeforeInodes(g, sb) && Room(|logged|, g)
    ensures |lh| == |logged| && Loggable(lh, g, sb.size)
  {
    EnumeratedCount(lh, logged);
    forall i | 0 <= i < |lh| ensures lh[i] < sb.size && !g.InLog(lh[i]) {
      assert lh[i] in logged;
    }
  }

  /**
   A crash: the transaction listed its blocks as lh, k of the block writes of its commit were
   carried out, recoveries were cut short after cuts[0], cuts[1], ... writes, and left `disk`.
   */
  datatype Crash = Crash(lh: seq<nat>, k: nat, cuts: seq<nat>, disk: LogDisk<Block>)

  /**
   c is a crash of a run that started on d, committed txns, and was committing the contents new_ of
   the blocks logged.
   */
  ghost predicate IsCrash(d: LogDisk<Block>, g: Geometry, txns: seq<Txn<Block>>, logged: set<nat>, new_: Disk, c: Crash)
  {
    && (forall i | 0 <= i < |txns| :: |txns[i].lh| == |txns[i].vals|)
    && Enumerates(c.lh, logged) && (forall i | 0 <= i < |c.lh| :: c.lh[i] < |new_|)
    && c.k <= 2 * |c.lh| + 2
    && var ws := RunWrites(g, txns) + CommitWrites(g, c.lh, RawWrites.Gather(new_, c.lh))[..c.k];
       OnDisk(ws, |d.blocks|) && CrashedRecoveries(Apply(d, ws), g, c.cuts, c.disk)
  }

  /** What recovering from c gives. */
  ghost function Recovered(g: Geometry, c: Crash): Disk
    requires g.start + 1 + |c.disk.head| <= |c.disk.blocks| && OnDisk(RecoveryWrites(c.disk, g), |c.disk.blocks|)
  {
    Apply(c.disk, RecoveryWrites(c.disk, g)).blocks
  }

  /** It gives exactly the home blocks of `new_` if the header reached the disk, and exactly those of `old_` if not. */
  ghost predicate AllOrNothing(g: Geometry, c: Crash, old_: Disk, new_: Disk) {
    && g.start + 1 + |c.disk.head| <= |c.disk.blocks| && OnDisk(RecoveryWrites(c.disk, g), |c.disk.blocks|)
    && SameHome(Recovered(g, c), g, if c.k <= |c.lh| then old_ else new_)
  }

  /** The committed transactions left the disk that the file system sees as `disk`. */
  ghost predicate Committed(d: LogDisk<Block>, g: Geometry, txns: seq<Txn<Block>>, disk: Disk) {
    && d.head == [] && g.start + g.size <= |d.blocks|
    && TxnsOk(txns, g, |d.blocks|) && SameHome(disk, g, UpdateAll(d.blocks, txns))
  }

  /**
   Operations and their crash: transactions `txns` have committed and left the disk of v0; the
   next one holds operations that turned it into the disk of v1 and changed only blocks that
   they logged. Crash after any number of the block writes of its commit, crash again inside
   any number of recoveries, and recover: all the home blocks are those of v0 if the header
   did not reach the disk and those of v1 if it did.
   */
  lemma CommitIsCrashAtomic(d: LogDisk<Block>, g: Geometry, txns: seq<Txn<Block>>, v0: View, v1: View, logged: set<nat>,
                            c: Crash)
    requires Committed(d, g, txns, v0.disk) && LogBeforeInodes(g, v0.sb) && v0.Shape()
    requires OnlyBlocks(v0, v1, logged) && InFs(v0.sb, logged) && Room(|logged|, g)
    requires IsCrash(d, g, txns, logged, v1.disk, c)
    ensures |c.lh| == |logged| && AllOrNothing(g, c, v0.disk, v1.disk)
  {
    hide OnlyBlocks, InFs, CrashedRecoveries, Meaning, RunWrites, CommitWrites, UpdateHome, UpdateAll, Distinct;
    LoggedIsLoggable(c.lh, logged, g, v0.sb);
    var last := Txn(c.lh, RawWrites.Gather(v1.disk, c.lh));
    var home := UpdateAll(d.blocks, txns);
    CrashSafety(d, g, txns, last, c.k, c.cuts, c.disk);
    OnlyInside(v0, logged);
    CommitIsTheWrite(v0, v1, logged, c.lh);
    UpdateSameHome(v0.disk, home, g, last);
    if c.k <= |c.lh| {
      SameHomeTwice(Recovered(g, c), home, v0.disk, g);
    } else {
      SameHomeTwice(Recovered(g, c), UpdateHome(home, last), v1.disk, g);
    }
  }

  /** The commit itself: with it, the log and the file system agree on the new disk. */
  lemma CommitAdds(d: LogDisk<Block>, g: Geometry, txns: seq<Txn<Block>>, v0: View, v1: View, logged: set<nat>,
                   lh: seq<nat>)
    requires Committed(d, g, txns, v0.disk) && LogBeforeInodes(g, v0.sb) && v0.Shape() && |v1.disk| == v0.sb.size
    requires OnlyBlocks(v0, v1, logged) && InFs(v0.sb, logged) && Room(|logged|, g) && Enumerates(lh, logged)
    ensures forall i | 0 <= i < |lh| :: lh[i] < |v1.disk|
    ensures Committed(d, g, txns + [Txn(lh, RawWrites.Gather(v1.disk, lh))], v1.disk)
  {
    hide OnlyBlocks, InFs, UpdateHome;
    LoggedIsLoggable(lh, logged, g, v0.sb);
    OnlyInside(v0, logged);
    CommitIsTheWrite(v0, v1, logged, lh);
    var t := Txn(lh, RawWrites.Gather(v1.disk, lh));
    UpdateSameHome(v0.disk, UpdateAll(d.blocks, txns), g, t);
    assert (txns + [t])[..|txns|] == txns;
  }

  lemma OnlyInside(v: View, logged: set<nat>)
    requires v.Shape() && InFs(v.sb, logged)
    ensures forall x | x in logged :: x < |v.disk|
  {
  }

  lemma SameHomeTwice(e: Disk, home: Disk, v: Disk, g: Geometry)
    requires SameHome(e, g, home) && SameHome(v, g, home)
    ensures SameHome(e, g, v)
  {
  }

  /** A file, old or new, on a disk that a crash left. */
  lemma FileAfterCrash(v: View, own: map<nat, Owner>, old_: Disk, new_: Disk, g: Geometry, c: Crash)
    requires AllOrNothing(g, c, old_, new_) && FileOk(v, own) && LogBeforeInodes(g, v.sb)
    requires v.disk == if c.k <= |c.lh| then old_ else new_
    ensures SameFile(v, own, Recovered(g, c))
  {
    SameHomeSameFile(v, own, Recovered(g, c), g);
  }

  // ---- Group commit ----

  /** One operation of a group: the disk as it left it, and the blocks it logged. */
  datatype Op = Op(v: View, logged: set<nat>)

  /** Operations one after the other, from v0, each changing only what it logs. */
  ghost predicate Group(v0: View, ops: seq<Op>)
    decreases |ops|
  {
    if ops == [] then v0.Shape()
    else
      var n := |ops| - 1;
      && Group(v0, ops[..n]) && ops[n].v.Shape() && ops[n].v.sb == v0.sb && InFs(v0.sb, ops[n].logged)
      && OnlyBlocks(GroupEnd(v0, ops[..n]), ops[n].v, ops[n].logged)
  }

  function GroupEnd(v0: View, ops: seq<Op>): View {
    if ops == [] then v0 else ops[|ops| - 1].v
  }

  function GroupLogged(ops: seq<Op>): set<nat> {
    if ops == [] then {} else GroupLogged(ops[..|ops| - 1]) + ops[|ops| - 1].logged
  }

  lemma {:induction false} GroupChanges(v0: View, ops: seq<Op>)
    requires Group(v0, ops)
    ensures GroupEnd(v0, ops).Shape() && GroupEnd(v0, ops).sb == v0.sb
    ensures OnlyBlocks(v0, GroupEnd(v0, ops), GroupLogged(ops)) && InFs(v0.sb, GroupLogged(ops))
    decreases |ops|
  {
    if ops != [] {
      var n := |ops| - 1;
      GroupChanges(v0, ops[..n]);
      OnlyBlocksTwice(v0, GroupEnd(v0, ops[..n]), ops[n].v, GroupLogged(ops[..n]), ops[n].logged);
      FrameJoin(v0.sb, GroupLogged(ops[..n]), ops[n].logged);
    }
  }

  /**
   Group commit: several operations share one transaction, on files of the same or of
   different inodes. A crash keeps all of them or none: every file that was sound before is
   as it was before the first one, or every file that is sound after is as after the last.
   */
  lemma GroupIsCrashAtomic(d: LogDisk<Block>, g: Geometry, txns: seq<Txn<Block>>, v0: View, ops: seq<Op>, c: Crash,
                           v: View, own: map<nat, Owner>)
    requires Committed(d, g, txns, v0.disk) && LogBeforeInodes(g, v0.sb) && Group(v0, ops)
    requires Room(|GroupLogged(ops)|, g)
    requires IsCrash(d, g, txns, GroupLogged(ops), GroupEnd(v0, ops).disk, c)
    requires FileOk(v, own) && v.sb == v0.sb && v.disk == if c.k <= |c.lh| then v0.disk else GroupEnd(v0, ops).disk
    ensures AllOrNothing(g, c, v0.disk, GroupEnd(v0, ops).disk) && SameFile(v, own, Recovered(g, c))
  {
    hide IsCrash, OnlyBlocks, InFs, FileOk, SameFile, Committed;
    GroupChanges(v0, ops);
    GroupShape(v0, ops);
    CommitIsCrashAtomic(d, g, txns, v0, GroupEnd(v0, ops), GroupLogged(ops), c);
    FileAfterCrash(v, own, v0.disk, GroupEnd(v0, ops).disk, g, c);
  }

  lemma {:induction false} GroupShape(v0: View, ops: seq<Op>)
    requires Group(v0, ops)
    ensures v0.Shape()
    decreases |ops|
  {
    if ops != [] {
      GroupShape(v0, ops[..|ops| - 1]);
    }
  }

  // ---- filewrite, chunk by chunk ----

  /** The lists of blocks with which the chunks up to j committed. */
  ghost predicate ListsChunks(snaps: seq<FileSys.Snap>, lhs: seq<seq<nat>>, j: nat) {
    && j < |snaps| && j < |lhs|
    && forall i: nat | 1 <= i <= j ::
           Enumerates(lhs[i], snaps[i].logged) && forall m | 0 <= m < |lhs[i]| :: lhs[i][m] < |snaps[i].v.disk|
  }

  /** The transactions of chunks 1..j. */
  ghost function ChunkTxns(snaps: seq<FileSys.Snap>, lhs: seq<seq<nat>>, j: nat): seq<Txn<Block>>
    requires ListsChunks(snaps, lhs, j)
  {
    if j == 0 then [] else ChunkTxns(snaps, lhs, j - 1) + [Txn(lhs[j], RawWrites.Gather(snaps[j].v.disk, lhs[j]))]
  }

  lemma {:induction false} ChunksCommitted(d: LogDisk<Block>, g: Geometry, txns: seq<Txn<Block>>,
                                           snaps: seq<FileSys.Snap>, v0: View, used0: nat, off: nat,
                                           addr: seq<Byte>, n: int, lhs: seq<seq<nat>>, j: nat)
    requires Committed(d, g, txns, v0.disk) && LogBeforeInodes(g, v0.sb) && Room(MAXOPBLOCKS + 1, g)
    requires FileSys.Snapshots(snaps, v0, used0, off, addr, n) && ListsChunks(snaps, lhs, j)
    ensures Committed(d, g, txns + ChunkTxns(snaps, lhs, j), snaps[j].v.disk)
    decreases j
  {
    hide Committed, Appending, OnlyBlocks, InFs, Enumerates, Inv;
    if j == 0 {
      assert txns + [] == txns;
    } else {
      ChunksCommitted(d, g, txns, snaps, v0, used0, off, addr, n, lhs, j - 1);
      SnapShapes(snaps, v0, used0, off, addr, n, j);
      assert FileSys.SnapStep(snaps, v0, j);
      CommitAdds(d, g, txns + ChunkTxns(snaps, lhs, j - 1), snaps[j - 1].v, snaps[j].v, snaps[j].logged, lhs[j]);
      assert txns + ChunkTxns(snaps, lhs, j)
             == txns + ChunkTxns(snaps, lhs, j - 1) + [Txn(lhs[j], RawWrites.Gather(snaps[j].v.disk, lhs[j]))];
    }
  }

  lemma SnapShapes(snaps: seq<FileSys.Snap>, v0: View, used0: nat, off: nat, addr: seq<Byte>, n: int, j: nat)
    requires FileSys.Snapshots(snaps, v0, used0, off, addr, n) && 1 <= j < |snaps|
    ensures snaps[j - 1].v.Shape() && snaps[j - 1].v.sb == v0.sb && snaps[j].v.Shape() && snaps[j].v.sb == v0.sb
    ensures FileOk(snaps[j - 1].v, snaps[j - 1].own) && FileOk(snaps[j].v, snaps[j].own)
  {
    hide OnlyBlocks, InFs, Wrote;
    assert FileSys.SnapAt(snaps, v0, used0, off, addr, n, j - 1) && FileSys.SnapAt(snaps, v0, used0, off, addr, n, j);
    AppendingAt(snaps[j - 1].v, snaps[j - 1].own, v0, used0, off, addr, snaps[j - 1].i);
    AppendingAt(snaps[j].v, snaps[j].own, v0, used0, off, addr, snaps[j].i);
  }

  /** The file on disk e is sound and is what the first j chunks of filewrite make of v0. */
  ghost predicate WroteChunks(v0: View, off: nat, addr: seq<Byte>, n: int, j: nat, s: FileSys.Snap, e: Disk) {
    && SameFile(s.v, s.own, e) && v0.Shape() && off <= v0.ip.size <= MAXFILE * BSIZE && FileSys.ChunkEnd(n, j) <= |addr|
    && Content(s.v.(disk := e), s.v.ip.size) == Splice(Content(v0, v0.ip.size), off, addr[..FileSys.ChunkEnd(n, j)])
  }

  /**
   A crash anywhere in filewrite: chunks 1..j-1 have committed and the crash hits the commit of
   chunk j. The recovered file has its old bytes with the first j - 1 chunks spliced in, or
   with the first j.
   */
  lemma ChunksAreCrashAtomic(d: LogDisk<Block>, g: Geometry, txns: seq<Txn<Block>>, snaps: seq<FileSys.Snap>,
                             v0: View, used0: nat, off: nat, addr: seq<Byte>, n: int,
                             lhs: seq<seq<nat>>, j: nat, c: Crash)
    requires Committed(d, g, txns, v0.disk) && LogBeforeInodes(g, v0.sb) && Room(MAXOPBLOCKS + 1, g)
    requires off <= v0.ip.size
    requires FileSys.Snapshots(snaps, v0, used0, off, addr, n) && 1 <= j < |snaps| && ListsChunks(snaps, lhs, j - 1)
    requires IsCrash(d, g, txns + ChunkTxns(snaps, lhs, j - 1), snaps[j].logged, snaps[j].v.disk, c)
    ensures AllOrNothing(g, c, snaps[j - 1].v.disk, snaps[j].v.disk)
    ensures var m := if c.k <= |c.lh| then j - 1 else j; WroteChunks(v0, off, addr, n, m, snaps[m], Recovered(g, c))
  {
    hide Committed, IsCrash, Appending, OnlyBlocks, InFs, SameFile, Inv, ListsChunks;
    ChunksCommitted(d, g, txns, snaps, v0, used0, off, addr, n, lhs, j - 1);
    SnapShapes(snaps, v0, used0, off, addr, n, j);
    assert FileSys.SnapStep(snaps, v0, j);
    CommitIsCrashAtomic(d, g, txns + ChunkTxns(snaps, lhs, j - 1), snaps[j - 1].v, snaps[j].v, snaps[j].logged, c);
    var m := if c.k <= |c.lh| then j - 1 else j;
    FileAfterCrash(snaps[m].v, snaps[m].own, snaps[j - 1].v.disk, snaps[j].v.disk, g, c);
    assert FileSys.SnapAt(snaps, v0, used0, off, addr, n, m);
    SnapContent(snaps[m], v0, used0, off, addr, n, m, Recovered(g, c));
  }

  lemma SnapContent(s: FileSys.Snap, v0: View, used0: nat, off: nat, addr: seq<Byte>, n: int, j: nat, e: Disk)
    requires Appending(s.v, s.own, v0, used0, off, addr, s.i) && s.i == FileSys.ChunkEnd(n, j)
    requires off <= v0.ip.size && SameFile(s.v, s.own, e)
    ensures WroteChunks(v0, off, addr, n, j, s, e)
  {
  }

  /**
   One transaction of filewrite and every crash of it: whatever WriteChunk did, whenever the
   power fails, and however often recovery is interrupted, the recovered file has its old
   bytes or its old bytes with the source spliced in, nothing in between, by whether the
   commit's header write was carried out.
   */
  method WriteOrNothing(fs: FileSys.Fs, s: seq<Byte>, off: nat, ghost d: LogDisk<Block>, ghost g: Geometry,
                        ghost txns: seq<Txn<Block>>)
    returns (ok: bool, r: int)
    requires FileOk(fs.V(), fs.own) && off < UINT && |s| <= CHUNK
    requires Committed(d, g, txns, fs.disk) && LogBeforeInodes(g, fs.sb) && Room(MAXOPBLOCKS + 1, g)
    modifies fs`disk, fs`ip, fs`own, fs`logged
    ensures ok <==> !WriteFits(old(fs.ip.size), off, |s|)
                    || |old(fs.own)| + ByteCost(old(fs.V()), off, |s|) <= Capacity(fs.sb)
    ensures ok ==> (r == -1 <==> !WriteFits(old(fs.ip.size), off, |s|))
    ensures ok && r == -1 ==> fs.disk == old(fs.disk)
    ensures ok && r != -1 ==> Wrote(old(fs.V()), fs.V(), fs.own, off, s)
    ensures ok ==> forall c | IsCrash(d, g, txns, fs.logged, fs.disk, c) ::
                     && AllOrNothing(g, c, old(fs.disk), fs.disk)
                     && (if c.k <= |c.lh| then SameFile(old(fs.V()), old(fs.own), Recovered(g, c))
                         else SameFile(fs.V(), fs.own, Recovered(g, c)))
  {
    hide Inv, OthersKept, Wrote, Committed, IsCrash, SameFile, OnlyBlocks, InFs, ByteCost;
    ghost var v0, own0 := fs.V(), fs.own;
    InvShape(v0, own0);
    ok, r := fs.WriteChunk(s, off);
    if ok {
      forall c | IsCrash(d, g, txns, fs.logged, fs.disk, c)
        ensures AllOrNothing(g, c, v0.disk, fs.disk)
        ensures if c.k <= |c.lh| then SameFile(v0, own0, Recovered(g, c)) else SameFile(fs.V(), fs.own, Recovered(g, c))
      {
        CommitIsCrashAtomic(d, g, txns, v0, fs.V(), fs.logged, c);
        if c.k <= |c.lh| {
          FileAfterCrash(v0, own0, v0.disk, fs.disk, g, c);
        } else {
          FileAfterCrash(fs.V(), fs.own, v0.disk, fs.disk, g, c);
        }
      }
    }
  }
}
