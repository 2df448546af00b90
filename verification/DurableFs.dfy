/**
 A file write from writei down to the disk and back: the blocks that writei changed go
 through the buffer cache and the log, after those of earlier operations of the same
 transaction; the last operation commits them all while others read; the power fails, and
 the machine boots and recovers.
 */
module DurableFs {
  import opened Blocks
  import opened Inodes
  import opened Contents
  import opened FileMap
  import opened WriteSteps
  import opened Recovery
  import opened CrashFs
  import Bio
  import CacheSteps
  import Coherence
  import FileSys
  import Log
  import LogHeader
  import RawWrites

  /** The members of s, each once. */
  method Enumerate(s: set<nat>) returns (lh: seq<nat>)
    ensures Enumerates(lh, s)
  {
    lh := [];
    var rest := s;
    while rest != {}
      invariant rest <= s && Enumerates(lh, s - rest)
      decreases |rest|
    {
      var x :| x in rest;
      lh := lh + [x];
      rest := rest - {x};
    }
  }

  /**
   The new contents of the blocks lh, passed to log_write one after the other, on top of what
   the log holds already, while others read between the calls. It only fails where no buffer
   can be recycled, the blocks pinned by then and the u other buffers in use filling the cache;
   never if there is room for all blocks and all readers.
   */
  method LogBlocks(log: Log.Log, lh: seq<nat>, new_: Disk, held0: set<nat>)
    returns (ok: bool, held: set<nat>, ghost u: nat)
    requires log.Valid() && log.Aside(held0) && log.outstanding >= 1 && |new_| == |log.bc.disk|
    requires Loggable(lh, log.g, |log.bc.disk|) && Room(|log.lh| + |lh|, log.g)
    modifies log.bc, log`lh, log`pin
    ensures log.bc.disk == old(log.bc.disk) && log.bc.issued == old(log.bc.issued)
    ensures |old(log.lh)| + |lh| + log.readers < Bio.NBUF ==> ok
    ensures !ok ==> log.Full(held, u, |log.pin|) && |log.pin| < |old(log.lh)| + |lh|
    ensures ok ==> log.Valid() && log.Aside(held) && |log.lh| <= |old(log.lh)| + |lh|
    ensures ok ==> forall x :: x in log.lh <==> x in old(log.lh) || x in lh
    ensures ok ==> Overlaid(old(log.Sees()), new_, lh, log.Sees())
  {
    hide Coherence.Coherent, Coherence.Busy, Bio.Linked, Bio.ByRecency, Bio.UniqueIds, Log.Lists, Log.Outside, Overlaid,
         Log.ReadFor;
    ghost var old_ := log.Sees();
    var i := 0;
    ok, held, u := true, held0, 0;
    OverlaidStart(old_, new_, lh);
    while i < |lh|
      invariant 0 <= i <= |lh| && log.Valid() && log.Aside(held)
      invariant log.bc.disk == old(log.bc.disk) && log.bc.issued == old(log.bc.issued)
      invariant |log.lh| <= |old(log.lh)| + i && forall x :: x in log.lh <==> x in old(log.lh) || x in lh[..i]
      invariant Overlaid(old_, new_, lh[..i], log.Sees())
    {
      OverlaidStep(old_, new_, lh, i, log.Sees());
      ok, held, u := LogBlock(log, lh[i], new_[lh[i]], held);
      if !ok {
        return;
      }
      i := i + 1;
    }
    assert lh[..|lh|] == lh;
  }

  /** One of them. */
  method LogBlock(log: Log.Log, h: nat, data: Block, held0: set<nat>)
    returns (ok: bool, held: set<nat>, ghost u: nat)
    requires log.Valid() && log.Aside(held0) && log.outstanding >= 1 && h < |log.bc.disk| && !log.g.InLog(h)
    requires |log.lh| < LOGSIZE && |log.lh| < log.g.size - 1
    modifies log.bc, log`lh, log`pin
    ensures log.bc.disk == old(log.bc.disk) && log.bc.issued == old(log.bc.issued)
    ensures |old(log.lh)| + log.readers < Bio.NBUF ==> ok
    ensures !ok ==> log.Full(held, u, |log.pin|) && |log.pin| == |old(log.lh)|
    ensures ok ==> log.Valid() && log.Aside(held) && log.Sees() == old(log.Sees())[h := data]
    ensures ok ==> log.lh == if h in old(log.lh) then old(log.lh) else old(log.lh) + [h]
  {
    hide Coherence.Coherent, Bio.Linked, Bio.ByRecency, Bio.UniqueIds, Log.Outside, LogHeader.HeaderList,
         Coherence.View;
    held := log.Interfere(held0, h, h);
    u := |Coherence.Unpinned(log.bc.bufs, held)|;
    log.FewOthers(held);
    CacheSteps.FirstAvailable(log.bc.bufs, log.bc.disk, log.pin, held, h);
    ghost var bufs0 := log.bc.bufs;
    ok := log.Update(h, data, held);
  }

  /** seen has the new contents of the blocks lh and the old contents of the others. */
  ghost predicate Overlaid(old_: Disk, new_: Disk, lh: seq<nat>, seen: Disk) {
    |seen| == |old_| == |new_| && forall h | 0 <= h < |seen| :: seen[h] == if h in lh then new_[h] else old_[h]
  }

  lemma OverlaidStart(old_: Disk, new_: Disk, lh: seq<nat>)
    requires |old_| == |new_|
    ensures lh[..0] == [] && Overlaid(old_, new_, lh[..0], old_)
  {
  }

  lemma OverlaidStep(old_: Disk, new_: Disk, lh: seq<nat>, i: nat, seen: Disk)
    requires i < |lh| && Overlaid(old_, new_, lh[..i], seen) && lh[i] < |seen|
    ensures lh[..i + 1] == lh[..i] + [lh[i]]
    ensures Overlaid(old_, new_, lh[..i + 1], seen[lh[i] := new_[lh[i]]])
  {
    assert lh[..i + 1] == lh[..i] + [lh[i]];
  }

  /** The block writes of a commit of n blocks. */
  function CommitLength(n: nat): nat {
    if n == 0 then 0 else 2 * n + 2
  }

  /**
   The last operation of a transaction is a chunk of filewrite, and the power fails in its
   commit. vc is any file on the disk as it was last committed; since then, earlier operations
   of the transaction may have changed it, in the log only. `total` blocks were logged by the
   whole transaction. If there is room in the cache for them and for all readers, they all get
   into the log and commit() gets `through`; then `written` of its block writes are carried
   out, all of them but for the power failure after k. The recovered disk has all its home
   blocks, and so the file vc, as last committed if written is at most total. From then on it
   has what all operations of the transaction made of them, and so the written file: the old
   bytes with the source spliced in.
   */
  method WritePowerFailure(fs: FileSys.Fs, log: Log.Log, s: seq<Byte>, off: nat, k: nat, held: set<nat>,
                           ghost vc: View, ghost ownc: map<nat, Owner>)
    returns (ok: bool, r: int, after: Log.Log, through: bool, total: nat, written: nat)
    requires FileOk(fs.V(), fs.own) && off < UINT && |s| <= CHUNK
    requires log.Valid() && log.Aside(held) && log.outstanding == 1 && fs.disk == log.Sees()
    requires FileOk(vc, ownc) && vc.sb == fs.sb && vc.disk == log.bc.disk
    requires LogBeforeInodes(log.g, fs.sb) && Room(|log.lh| + MAXOPBLOCKS + 1, log.g)
    modifies fs`disk, fs`ip, fs`own, fs`logged, log, log.bc
    ensures ok <==> !WriteFits(old(fs.ip.size), off, |s|)
                    || |old(fs.own)| + ByteCost(old(fs.V()), off, |s|) <= Capacity(fs.sb)
    ensures ok ==> (r == -1 <==> !WriteFits(old(fs.ip.size), off, |s|))
    ensures ok && r == -1 ==> fs.V() == old(fs.V())
    ensures ok && r != -1 ==> Wrote(old(fs.V()), fs.V(), fs.own, off, s)
    ensures ok ==> OnlyBlocks(old(fs.V()), fs.V(), fs.logged) && |fs.logged| <= MAXOPBLOCKS + 1
    ensures ok ==> after.Valid() && after.lh == [] && after.g == log.g && written <= k
    ensures ok && |old(log.lh)| + |fs.logged| + log.readers < Bio.NBUF ==> through
    ensures ok && !through ==> !Bio.HasRecyclable(log.bc.bufs)
    ensures ok && through ==> total == |Log.Listed(old(log.lh)) + fs.logged|
    ensures ok && through ==> written == if k < CommitLength(total) then k else CommitLength(total)
    ensures ok && written <= total ==> SameHome(after.bc.disk, log.g, vc.disk) && SameFile(vc, ownc, after.bc.disk)
    ensures ok && written > total ==> SameHome(after.bc.disk, log.g, fs.disk) && SameFile(fs.V(), fs.own, after.bc.disk)
  {
    hide Inv, OthersKept, OnlyBlocks, InFs, Capacity, ByteCost, Wrote;
    hide Coherence.Coherent, Bio.Linked, Bio.ByRecency, Bio.UniqueIds, Log.Lists, Log.Outside, SameHome, SameFile;
    ghost var v0, own0 := fs.V(), fs.own;
    after, through, total, written := log, false, 0, 0;
    InvShape(v0, own0);
    InvShape(vc, ownc);
    ok, r := fs.WriteChunk(s, off);
    if ok {
      after, through, total, written := CommitOrFail(log, fs.logged, fs.disk, k, held, vc, ownc, v0, fs.V(), fs.own);
    }
  }

  /** The logged blocks go to the log; the last operation leaves and commits; the power fails after k writes. */
  method CommitOrFail(log: Log.Log, logged: set<nat>, new_: Disk, k: nat, held0: set<nat>,
                      ghost vc: View, ghost ownc: map<nat, Owner>,
                      ghost v0: View, ghost v1: View, ghost own1: map<nat, Owner>)
    returns (after: Log.Log, through: bool, total: nat, written: nat)
    requires log.Valid() && log.Aside(held0) && log.outstanding == 1 && v0.disk == log.Sees() && vc.disk == log.bc.disk
    requires FileOk(vc, ownc) && v0.Shape() && FileOk(v1, own1) && v1.sb == v0.sb == vc.sb && v1.disk == new_
    requires OnlyBlocks(v0, v1, logged) && InFs(v0.sb, logged)
    requires LogBeforeInodes(log.g, v0.sb) && Room(|log.lh| + |logged|, log.g)
    modifies log, log.bc
    ensures after.Valid() && after.lh == [] && after.g == log.g && written <= k
    ensures |old(log.lh)| + |logged| + log.readers < Bio.NBUF ==> through
    ensures !through ==> !Bio.HasRecyclable(log.bc.bufs)
    ensures through ==> total == |Log.Listed(old(log.lh)) + logged|
    ensures through ==> written == if k < CommitLength(total) then k else CommitLength(total)
    ensures written <= total ==> SameHome(after.bc.disk, log.g, vc.disk) && SameFile(vc, ownc, after.bc.disk)
    ensures written > total ==> SameHome(after.bc.disk, log.g, v1.disk) && SameFile(v1, own1, after.bc.disk)
  {
    hide Inv, OnlyBlocks, InFs;
    hide Coherence.Coherent, Bio.Linked, Bio.ByRecency, Bio.UniqueIds, Log.Lists, Log.Outside, SameHome, SameFile;
    InvShape(v1, own1);
    var ok, held := LogAll(log, logged, new_, held0, v0, v1);
    through, total, written := false, 0, 0;
    if ok {
      total := |log.lh|;
      log.outstanding, log.committing := 0, true;
      var sent;
      through, after, sent := Log.PowerFailure(log, k, held);
      written := if k < sent then k else sent;
    } else {
      EmptyHeaderMeans(log.bc.disk, log.g);
      after := Log.Restart(log.bc.disk, log.g, log.readers, log.bc.disk);
    }
    if written <= total {
      SameFileAfter(vc, ownc, after.bc.disk, log.g);
    } else {
      SameFileAfter(v1, own1, after.bc.disk, log.g);
    }
  }

  /** All the logged blocks with their new contents. */
  method LogAll(log: Log.Log, logged: set<nat>, new_: Disk, held0: set<nat>, ghost v0: View, ghost v1: View)
    returns (ok: bool, held: set<nat>)
    requires log.Valid() && log.Aside(held0) && log.outstanding == 1 && v0.disk == log.Sees()
    requires v0.Shape() && v1.Shape() && v1.sb == v0.sb && v1.disk == new_
    requires OnlyBlocks(v0, v1, logged) && InFs(v0.sb, logged)
    requires LogBeforeInodes(log.g, v0.sb) && Room(|log.lh| + |logged|, log.g)
    modifies log.bc, log`lh, log`pin
    ensures log.bc.disk == old(log.bc.disk)
    ensures |old(log.lh)| + |logged| + log.readers < Bio.NBUF ==> ok
    ensures !ok ==> !Bio.HasRecyclable(log.bc.bufs)
    ensures ok ==> log.Valid() && log.Aside(held) && log.Sees() == new_
    ensures ok ==> |log.lh| == |Log.Listed(old(log.lh)) + logged| <= |old(log.lh)| + |logged|
  {
    hide Inv, OnlyBlocks, InFs;
    hide Coherence.Coherent, Bio.Linked, Bio.ByRecency, Bio.UniqueIds, Log.Lists, Log.Outside, Overlaid, Log.ReadFor;
    var lh := Enumerate(logged);
    LoggedIsLoggable(lh, logged, log.g, v0.sb);
    ghost var u;
    ok, held, u := LogBlocks(log, lh, new_, held0);
    if ok {
      SeesTheWrite(v0, v1, logged, lh, log.Sees());
      ListedUnion(old(log.lh), lh, logged, log.lh, log.pin, log.g, |log.bc.disk|);
    }
  }

  /** What is listed at the end is what was listed before and what the operation logged. */
  lemma ListedUnion(lh0: seq<nat>, lh: seq<nat>, logged: set<nat>, lh2: seq<nat>,
                    pin: map<nat, nat>, g: Geometry, size: nat)
    requires Enumerates(lh, logged) && Log.Lists(lh2, pin, g, size) && forall x :: x in lh2 <==> x in lh0 || x in lh
    ensures |lh2| == |Log.Listed(lh0) + logged|
  {
    EnumeratedCount(lh2, Log.Listed(lh0) + logged);
  }

  /** A disk with an empty header means itself. */
  lemma EmptyHeaderMeans(image: Disk, g: Geometry)
    requires 1 <= g.size && g.start + g.size <= |image| && LogHeader.HeaderList(image[g.start]) == []
    ensures MeansHome(RawWrites.Abs(image, g, LogHeader.HeaderList), g, image)
    ensures LogHeader.Count(image[g.start]) <= LOGSIZE
  {
  }

  lemma SameFileAfter(v: View, own: map<nat, Owner>, e: Disk, g: Geometry)
    requires FileOk(v, own) && SameHome(e, g, v.disk) && LogBeforeInodes(g, v.sb)
    ensures SameFile(v, own, e)
  {
    SameHomeSameFile(v, own, e, g);
  }

  /** Old contents outside the logged blocks and new contents inside are the new disk. */
  lemma SeesTheWrite(v0: View, v1: View, logged: set<nat>, lh: seq<nat>, seen: Disk)
    requires OnlyBlocks(v0, v1, logged) && Enumerates(lh, logged) && |seen| == |v1.disk|
    requires Overlaid(v0.disk, v1.disk, lh, seen)
    ensures seen == v1.disk
  {
  }
}
