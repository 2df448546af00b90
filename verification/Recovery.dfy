/**
 Crash recovery of the physical redo log of log.c, as a theory of block writes.

 The disk changes only by whole-block writes. A crash keeps the disk as some prefix of
 the issued writes left it. `Meaning` says what a crashed disk stands for without
 mentioning the steps of recovery: each home block that the on-disk header lists in
 position i has the value of log block i, and every other home block is as stored.

 Block contents are a type parameter here; `head` is the decoded header block.
 */
module Recovery {
  import opened Collections

  const MAXOPBLOCKS: nat := 10
  const LOGSIZE: nat := 3 * MAXOPBLOCKS

  /** Where the log lies: header at `start`, then size - 1 data blocks. */
  datatype Geometry = Geometry(start: nat, size: nat) {
    predicate InLog(bn: nat) {
      start <= bn < start + size
    }
  }

  datatype LogDisk<B> = LogDisk(head: seq<nat>, blocks: seq<B>)

  datatype Write<B> = PutBlock(bn: nat, data: B) | PutHead(lh: seq<nat>)

  /** Block numbers a transaction may log: few enough, distinct, on the disk, outside the log. */
  ghost predicate Loggable(lh: seq<nat>, g: Geometry, size: nat) {
    && |lh| <= LOGSIZE && |lh| < g.size
    && Distinct(lh)
    && forall i | 0 <= i < |lh| :: lh[i] < size && !g.InLog(lh[i])
  }

  ghost predicate WellFormed<B>(d: LogDisk<B>, g: Geometry) {
    g.start + g.size <= |d.blocks| && Loggable(d.head, g, |d.blocks|)
  }

  /** The meaning of home block `h` on a disk that may hold a committed transaction. */
  ghost function Meaning<B>(d: LogDisk<B>, g: Geometry, h: nat): B
    requires WellFormed(d, g) && h < |d.blocks|
  {
    if i :| 0 <= i < |d.head| && d.head[i] == h then d.blocks[g.start + 1 + i] else d.blocks[h]
  }

  /** Every block outside the log means the corresponding block of `home`. */
  ghost predicate MeansHome<B>(d: LogDisk<B>, g: Geometry, home: seq<B>) {
    && WellFormed(d, g) && |home| == |d.blocks|
    && forall h | 0 <= h < |home| && !g.InLog(h) :: Meaning(d, g, h) == home[h]
  }

  ghost predicate SameHome<B>(blocks: seq<B>, g: Geometry, home: seq<B>) {
    |home| == |blocks| && forall h | 0 <= h < |home| && !g.InLog(h) :: blocks[h] == home[h]
  }

  // ---- Runs of writes ----

  ghost predicate OnDisk<B>(ws: seq<Write<B>>, size: nat) {
    forall i | 0 <= i < |ws| :: ws[i].PutBlock? ==> ws[i].bn < size
  }

  function WriteOne<B>(d: LogDisk<B>, w: Write<B>): (r: LogDisk<B>)
    requires w.PutBlock? ==> w.bn < |d.blocks|
  {
    match w
    case PutBlock(bn, data) => LogDisk(d.head, d.blocks[bn := data])
    case PutHead(lh) => LogDisk(lh, d.blocks)
  }

  function Apply<B>(d: LogDisk<B>, ws: seq<Write<B>>): (r: LogDisk<B>)
    requires OnDisk(ws, |d.blocks|)
    ensures |r.blocks| == |d.blocks|
  {
    if ws == [] then d else WriteOne(Apply(d, ws[..|ws| - 1]), ws[|ws| - 1])
  }

  lemma {:induction false} ApplyConcat<B>(d: LogDisk<B>, a: seq<Write<B>>, b: seq<Write<B>>)
    requires OnDisk(a, |d.blocks|) && OnDisk(b, |d.blocks|)
    ensures OnDisk(a + b, |d.blocks|)
    ensures Apply(d, a + b) == Apply(Apply(d, a), b)
  {
    if b == [] {
      assert a + b == a;
    } else {
      var n := |b| - 1;
      ApplyConcat(d, a, b[..n]);
      assert (a + b)[..|a| + n] == a + b[..n];
    }
  }

  lemma ApplyAppend<B>(d: LogDisk<B>, ws: seq<Write<B>>, w: Write<B>)
    requires OnDisk(ws, |d.blocks|) && (w.PutBlock? ==> w.bn < |d.blocks|)
    ensures OnDisk(ws + [w], |d.blocks|)
    ensures Apply(d, ws + [w]) == WriteOne(Apply(d, ws), w)
  {
    assert (ws + [w])[..|ws|] == ws;
  }

  // ---- The writes of commit() and recover_from_log() ----

  /** write_log: log block i gets the i-th value. */
  function LogWrites<B>(g: Geometry, vals: seq<B>): (ws: seq<Write<B>>)
    ensures |ws| == |vals|
  {
    seq(|vals|, i requires 0 <= i < |vals| => PutBlock(g.start + 1 + i, vals[i]))
  }

  /** install_trans: home block lh[i] gets the i-th value. */
  function Installs<B>(lh: seq<nat>, vals: seq<B>): (ws: seq<Write<B>>)
    requires |lh| == |vals|
    ensures |ws| == |lh|
  {
    seq(|lh|, i requires 0 <= i < |lh| => PutBlock(lh[i], vals[i]))
  }

  /** write_log; write_head; install_trans; lh.n = 0; write_head. */
  function CommitWrites<B>(g: Geometry, lh: seq<nat>, vals: seq<B>): (ws: seq<Write<B>>)
    requires |lh| == |vals|
    ensures |ws| == 2 * |lh| + 2
  {
    LogWrites(g, vals) + [PutHead(lh)] + (Installs(lh, vals) + [PutHead([])])
  }

  /** read_head; install_trans; lh.n = 0; write_head. */
  function RecoveryWrites<B>(d: LogDisk<B>, g: Geometry): (ws: seq<Write<B>>)
    requires g.start + 1 + |d.head| <= |d.blocks|
    ensures |ws| == |d.head| + 1
  {
    Installs(d.head, LoggedValues(d, g)) + [PutHead([])]
  }

  function LoggedValues<B>(d: LogDisk<B>, g: Geometry): (vals: seq<B>)
    requires g.start + 1 + |d.head| <= |d.blocks|
    ensures |vals| == |d.head|
  {
    d.blocks[g.start + 1..g.start + 1 + |d.head|]
  }

  /** The first k installs change exactly the first k listed home blocks. */
  lemma {:induction false} InstallPrefix<B>(d: LogDisk<B>, lh: seq<nat>, vals: seq<B>, k: nat)
    requires |lh| == |vals| && Distinct(lh) && k <= |lh|
    requires forall i | 0 <= i < |lh| :: lh[i] < |d.blocks|
    ensures OnDisk(Installs(lh, vals)[..k], |d.blocks|)
    ensures var e := Apply(d, Installs(lh, vals)[..k]);
            && e.head == d.head
            && (forall i | 0 <= i < k :: e.blocks[lh[i]] == vals[i])
            && (forall h | 0 <= h < |d.blocks| && h !in lh[..k] :: e.blocks[h] == d.blocks[h])
  {
    var ws := Installs(lh, vals);
    if k > 0 {
      InstallPrefix(d, lh, vals, k - 1);
      assert ws[..k][..k - 1] == ws[..k - 1];
      assert lh[..k] == lh[..k - 1] + [lh[k - 1]];
    }
  }

  /** The first k log writes fill the first k log blocks and leave everything else alone. */
  lemma {:induction false} LogWritesPrefix<B>(d: LogDisk<B>, g: Geometry, vals: seq<B>, k: nat)
    requires g.start + g.size <= |d.blocks| && |vals| < g.size && k <= |vals|
    ensures OnDisk(LogWrites(g, vals)[..k], |d.blocks|)
    ensures var e := Apply(d, LogWrites(g, vals)[..k]);
            && e.head == d.head
            && (forall i | 0 <= i < k :: e.blocks[g.start + 1 + i] == vals[i])
            && SameHome(e.blocks, g, d.blocks)
  {
    var ws := LogWrites(g, vals);
    if k > 0 {
      LogWritesPrefix(d, g, vals, k - 1);
      assert ws[..k][..k - 1] == ws[..k - 1];
    }
  }

  // ---- Crash atomicity ----

  lemma MeaningOfListed<B>(d: LogDisk<B>, g: Geometry, i: nat)
    requires WellFormed(d, g) && i < |d.head|
    ensures Meaning(d, g, d.head[i]) == d.blocks[g.start + 1 + i]
  {
  }

  /** A crash while installing leaves the meaning of every home block as it was. */
  lemma InstallKeepsMeaning<B>(d: LogDisk<B>, g: Geometry, home: seq<B>, k: nat)
    requires MeansHome(d, g, home) && k <= |d.head|
    ensures OnDisk(Installs(d.head, LoggedValues(d, g))[..k], |d.blocks|)
    ensures var e := Apply(d, Installs(d.head, LoggedValues(d, g))[..k]);
            MeansHome(e, g, home) && (k == |d.head| ==> SameHome(e.blocks, g, home))
  {
    InstallPrefix(d, d.head, LoggedValues(d, g), k);
    var e := Apply(d, Installs(d.head, LoggedValues(d, g))[..k]);
    assert forall h | 0 <= h < |d.blocks| && g.InLog(h) :: h !in d.head[..k];
    forall h | 0 <= h < |home| && !g.InLog(h)
      ensures Meaning(e, g, h) == home[h] && (k == |d.head| ==> e.blocks[h] == home[h])
    {
      if i :| 0 <= i < |d.head| && d.head[i] == h {
        MeaningOfListed(d, g, i);
        MeaningOfListed(e, g, i);
      } else {
        assert h !in d.head[..k];
      }
    }
  }

  /**
   Recovery may itself be cut short after any number of its writes: the disk still means
   the same, so recovering again gives the same home blocks. Only the complete recovery
   empties the header, and then the home blocks hold what the crashed disk meant.
   */
  lemma RecoveryIsRestartable<B>(d: LogDisk<B>, g: Geometry, home: seq<B>, k: nat)
    requires MeansHome(d, g, home) && k <= |d.head| + 1
    ensures OnDisk(RecoveryWrites(d, g), |d.blocks|)
    ensures var e := Apply(d, RecoveryWrites(d, g)[..k]);
            MeansHome(e, g, home) && (k == |d.head| + 1 ==> e.head == [] && SameHome(e.blocks, g, home))
  {
    var ins := Installs(d.head, LoggedValues(d, g));
    var ws := RecoveryWrites(d, g);
    var n := |d.head|;
    InstallKeepsMeaning(d, g, home, if k <= n then k else n);
    if k <= n {
      assert ws[..k] == ins[..k];
    } else {
      assert ins[..n] == ins && ws[..k][..n] == ins && ws[..k] == ws;
    }
  }

  /** `new_` is `old_` with the transaction (lh, vals) carried out. */
  ghost predicate Updated<B>(old_: seq<B>, g: Geometry, lh: seq<nat>, vals: seq<B>, new_: seq<B>) {
    && |lh| == |vals| && |new_| == |old_|
    && (forall i | 0 <= i < |lh| && lh[i] < |new_| :: new_[lh[i]] == vals[i])
    && forall h | 0 <= h < |old_| && !g.InLog(h) && h !in lh :: new_[h] == old_[h]
  }

  /** The disk just after the header write means the new home blocks. */
  lemma HeaderWriteCommits<B>(d: LogDisk<B>, g: Geometry, lh: seq<nat>, vals: seq<B>, new_: seq<B>)
    requires g.start + g.size <= |d.blocks| && Loggable(lh, g, |d.blocks|)
    requires Updated(d.blocks, g, lh, vals, new_)
    ensures OnDisk(LogWrites(g, vals) + [PutHead(lh)], |d.blocks|)
    ensures var e := Apply(d, LogWrites(g, vals) + [PutHead(lh)]);
            MeansHome(e, g, new_) && e.head == lh && LoggedValues(e, g) == vals
  {
    LogWritesPrefix(d, g, vals, |vals|);
    assert LogWrites(g, vals)[..|vals|] == LogWrites(g, vals);
    ApplyAppend(d, LogWrites(g, vals), PutHead(lh));
    ListedMeans(Apply(d, LogWrites(g, vals) + [PutHead(lh)]), g, vals, d.blocks, new_);
  }

  lemma ListedMeans<B>(e: LogDisk<B>, g: Geometry, vals: seq<B>, old_: seq<B>, new_: seq<B>)
    requires WellFormed(e, g) && |vals| == |e.head|
    requires forall i | 0 <= i < |vals| :: e.blocks[g.start + 1 + i] == vals[i]
    requires SameHome(e.blocks, g, old_) && Updated(old_, g, e.head, vals, new_)
    ensures MeansHome(e, g, new_) && LoggedValues(e, g) == vals
  {
    forall h | 0 <= h < |new_| && !g.InLog(h) ensures Meaning(e, g, h) == new_[h] {
      if i :| 0 <= i < |e.head| && e.head[i] == h {
        MeaningOfListed(e, g, i);
      }
    }
  }

  /**
   Crash atomicity of commit(): stop after any number k of its block writes. Up to and
   including the log blocks the disk means the old home blocks; once the first header
   write is on disk it means the new ones, whatever was installed.
   */
  lemma CommitIsAtomic<B>(d: LogDisk<B>, g: Geometry, lh: seq<nat>, vals: seq<B>, new_: seq<B>, k: nat)
    requires d.head == [] && g.start + g.size <= |d.blocks| && Loggable(lh, g, |d.blocks|)
    requires Updated(d.blocks, g, lh, vals, new_)
    requires k <= 2 * |lh| + 2
    ensures OnDisk(CommitWrites(g, lh, vals), |d.blocks|)
    ensures var e := Apply(d, CommitWrites(g, lh, vals)[..k]);
            && MeansHome(e, g, if k <= |lh| then d.blocks else new_)
            && (k == 2 * |lh| + 2 ==> e.head == [] && SameHome(e.blocks, g, new_))
  {
    hide Apply, MeansHome, SameHome, CommitWrites, Distinct;
    if k <= |lh| {
      AfterHeaderWrite(d, g, lh, vals, new_, 0);
      BeforeHeaderWrite(d, g, lh, vals, k);
    } else {
      AfterHeaderWrite(d, g, lh, vals, new_, k - |lh| - 1);
    }
  }

  lemma BeforeHeaderWrite<B>(d: LogDisk<B>, g: Geometry, lh: seq<nat>, vals: seq<B>, k: nat)
    requires d.head == [] && g.start + g.size <= |d.blocks|
    requires k <= |lh| == |vals| < g.size
    requires OnDisk(CommitWrites(g, lh, vals), |d.blocks|)
    ensures MeansHome(Apply(d, CommitWrites(g, lh, vals)[..k]), g, d.blocks)
  {
    LogWritesPrefix(d, g, vals, k);
    assert CommitWrites(g, lh, vals)[..k] == LogWrites(g, vals)[..k];
  }

  lemma AfterHeaderWrite<B>(d: LogDisk<B>, g: Geometry, lh: seq<nat>, vals: seq<B>, new_: seq<B>, j: nat)
    requires g.start + g.size <= |d.blocks| && Loggable(lh, g, |d.blocks|)
    requires Updated(d.blocks, g, lh, vals, new_)
    requires j <= |lh| + 1
    ensures OnDisk(CommitWrites(g, lh, vals), |d.blocks|)
    ensures var e := Apply(d, CommitWrites(g, lh, vals)[..|lh| + 1 + j]);
            MeansHome(e, g, new_) && (j == |lh| + 1 ==> e.head == [] && SameHome(e.blocks, g, new_))
  {
    CommitSplits(d, g, lh, vals, new_);
    var first := LogWrites(g, vals) + [PutHead(lh)];
    var mid := Apply(d, first);
    var rest := RecoveryWrites(mid, g);
    RecoveryIsRestartable(mid, g, new_, j);
    assert CommitWrites(g, lh, vals)[..|lh| + 1 + j] == first + rest[..j];
    ApplyConcat(d, first, rest[..j]);
  }

  /** Everything commit() writes after the header is what recovery would write. */
  lemma CommitSplits<B>(d: LogDisk<B>, g: Geometry, lh: seq<nat>, vals: seq<B>, new_: seq<B>)
    requires g.start + g.size <= |d.blocks| && Loggable(lh, g, |d.blocks|)
    requires Updated(d.blocks, g, lh, vals, new_)
    ensures OnDisk(CommitWrites(g, lh, vals), |d.blocks|)
    ensures OnDisk(LogWrites(g, vals) + [PutHead(lh)], |d.blocks|)
    ensures var mid := Apply(d, LogWrites(g, vals) + [PutHead(lh)]);
            && MeansHome(mid, g, new_) && mid.head == lh
            && CommitWrites(g, lh, vals) == LogWrites(g, vals) + [PutHead(lh)] + RecoveryWrites(mid, g)
  {
    HeaderWriteCommits(d, g, lh, vals, new_);
    var mid := Apply(d, LogWrites(g, vals) + [PutHead(lh)]);
    RecoveryIsRestartable(mid, g, new_, 0);
  }

  // ---- Whole runs ----

  datatype Txn<B> = Txn(lh: seq<nat>, vals: seq<B>)

  ghost predicate TxnsOk<B>(txns: seq<Txn<B>>, g: Geometry, size: nat) {
    forall i | 0 <= i < |txns| :: |txns[i].lh| == |txns[i].vals| && Loggable(txns[i].lh, g, size)
  }

  /** Home blocks after a transaction, defined from the transaction alone. */
  function UpdateHome<B>(home: seq<B>, t: Txn<B>): (r: seq<B>)
    requires |t.lh| == |t.vals|
    ensures |r| == |home|
    decreases |t.lh|
  {
    if t.lh == [] then home
    else
      var n := |t.lh| - 1;
      var r := UpdateHome(home, Txn(t.lh[..n], t.vals[..n]));
      if t.lh[n] < |home| then r[t.lh[n] := t.vals[n]] else r
  }

  lemma {:induction false} UpdateHomeAt<B>(home: seq<B>, t: Txn<B>)
    requires |t.lh| == |t.vals| && Distinct(t.lh)
    ensures var r := UpdateHome(home, t);
            && (forall i | 0 <= i < |t.lh| && t.lh[i] < |home| :: r[t.lh[i]] == t.vals[i])
            && (forall h | 0 <= h < |home| && h !in t.lh :: r[h] == home[h])
    decreases |t.lh|
  {
    if t.lh != [] {
      var n := |t.lh| - 1;
      UpdateHomeAt(home, Txn(t.lh[..n], t.vals[..n]));
      assert t.lh == t.lh[..n] + [t.lh[n]];
    }
  }

  function UpdateAll<B>(home: seq<B>, txns: seq<Txn<B>>): (r: seq<B>)
    requires forall i | 0 <= i < |txns| :: |txns[i].lh| == |txns[i].vals|
    ensures |r| == |home|
  {
    if txns == [] then home else UpdateHome(UpdateAll(home, txns[..|txns| - 1]), txns[|txns| - 1])
  }

  /** The writes of a run that commits every transaction of `txns` in turn. */
  function RunWrites<B>(g: Geometry, txns: seq<Txn<B>>): (ws: seq<Write<B>>)
    requires forall i | 0 <= i < |txns| :: |txns[i].lh| == |txns[i].vals|
  {
    if txns == [] then []
    else
      var t := txns[|txns| - 1];
      RunWrites(g, txns[..|txns| - 1]) + CommitWrites(g, t.lh, t.vals)
  }

  lemma {:induction false} RunCommits<B>(d: LogDisk<B>, g: Geometry, txns: seq<Txn<B>>)
    requires d.head == [] && g.start + g.size <= |d.blocks| && TxnsOk(txns, g, |d.blocks|)
    ensures OnDisk(RunWrites(g, txns), |d.blocks|)
    ensures var e := Apply(d, RunWrites(g, txns));
            e.head == [] && SameHome(e.blocks, g, UpdateAll(d.blocks, txns))
    decreases |txns|
  {
    if txns != [] {
      var n := |txns| - 1;
      RunCommits(d, g, txns[..n]);
      var e := Apply(d, RunWrites(g, txns[..n]));
      var t := txns[n];
      var ws := CommitWrites(g, t.lh, t.vals);
      CommitsFrom(e, g, UpdateAll(d.blocks, txns[..n]), t, |ws|);
      assert ws[..|ws|] == ws;
      ApplyConcat(d, RunWrites(g, txns[..n]), ws);
    }
  }

  lemma CommitsFrom<B>(d: LogDisk<B>, g: Geometry, home: seq<B>, t: Txn<B>, k: nat)
    requires d.head == [] && g.start + g.size <= |d.blocks| && SameHome(d.blocks, g, home)
    requires |t.lh| == |t.vals| && Loggable(t.lh, g, |d.blocks|) && k <= 2 * |t.lh| + 2
    ensures OnDisk(CommitWrites(g, t.lh, t.vals), |d.blocks|)
    ensures var e := Apply(d, CommitWrites(g, t.lh, t.vals)[..k]);
            && MeansHome(e, g, if k <= |t.lh| then home else UpdateHome(home, t))
            && (k == 2 * |t.lh| + 2 ==> e.head == [] && SameHome(e.blocks, g, UpdateHome(home, t)))
  {
    UpdateHomeAt(home, t);
    CommitIsAtomic(d, g, t.lh, t.vals, UpdateHome(home, t), k);
  }

  /** `e` is left by recoveries of `d` that were cut short after cuts[0], cuts[1], ... writes. */
  ghost predicate CrashedRecoveries<B>(d: LogDisk<B>, g: Geometry, cuts: seq<nat>, e: LogDisk<B>)
    decreases |cuts|
  {
    if cuts == [] then e == d
    else
      && g.start + 1 + |d.head| <= |d.blocks| && OnDisk(RecoveryWrites(d, g), |d.blocks|)
      && cuts[0] <= |d.head| + 1
      && CrashedRecoveries(Apply(d, RecoveryWrites(d, g)[..cuts[0]]), g, cuts[1..], e)
  }

  lemma {:induction false} CrashedRecoveriesKeepMeaning<B>(d: LogDisk<B>, g: Geometry, home: seq<B>, cuts: seq<nat>,
                                                           e: LogDisk<B>)
    requires MeansHome(d, g, home) && CrashedRecoveries(d, g, cuts, e)
    ensures MeansHome(e, g, home)
    decreases |cuts|
  {
    if cuts != [] {
      RecoveryIsRestartable(d, g, home, cuts[0]);
      CrashedRecoveriesKeepMeaning(Apply(d, RecoveryWrites(d, g)[..cuts[0]]), g, home, cuts[1..], e);
    }
  }

  /**
   Safety over whole runs. Start from a clean file system, commit any transactions, crash
   after any number k of the block writes of one more commit, crash again inside any
   number of recoveries, and then recover. The home blocks are those of exactly the
   committed transactions, plus the last one if and only if its first header write
   reached the disk; and the log is clean again.
   */
  lemma CrashSafety<B>(d: LogDisk<B>, g: Geometry, txns: seq<Txn<B>>, last: Txn<B>, k: nat, cuts: seq<nat>,
                       crashed: LogDisk<B>)
    requires d.head == [] && g.start + g.size <= |d.blocks|
    requires TxnsOk(txns, g, |d.blocks|)
    requires |last.lh| == |last.vals| && Loggable(last.lh, g, |d.blocks|)
    requires k <= 2 * |last.lh| + 2
    requires var ws := RunWrites(g, txns) + CommitWrites(g, last.lh, last.vals)[..k];
             OnDisk(ws, |d.blocks|) && CrashedRecoveries(Apply(d, ws), g, cuts, crashed)
    ensures g.start + 1 + |crashed.head| <= |crashed.blocks| && OnDisk(RecoveryWrites(crashed, g), |crashed.blocks|)
    ensures var home := UpdateAll(d.blocks, txns);
            var e := Apply(crashed, RecoveryWrites(crashed, g));
            e.head == [] && SameHome(e.blocks, g, if k <= |last.lh| then home else UpdateHome(home, last))
  {
    hide Meaning, Installs, UpdateHome, Distinct;
    CrashMeansHome(d, g, txns, last, k);
    var ws := RunWrites(g, txns) + CommitWrites(g, last.lh, last.vals)[..k];
    var home := UpdateAll(d.blocks, txns);
    var target := if k <= |last.lh| then home else UpdateHome(home, last);
    CrashedRecoveriesKeepMeaning(Apply(d, ws), g, target, cuts, crashed);
    RecoveryIsRestartable(crashed, g, target, |crashed.head| + 1);
    var rw := RecoveryWrites(crashed, g);
    assert rw[..|rw|] == rw;
  }

  lemma CrashMeansHome<B>(d: LogDisk<B>, g: Geometry, txns: seq<Txn<B>>, last: Txn<B>, k: nat)
    requires d.head == [] && g.start + g.size <= |d.blocks|
    requires TxnsOk(txns, g, |d.blocks|)
    requires |last.lh| == |last.vals| && Loggable(last.lh, g, |d.blocks|)
    requires k <= 2 * |last.lh| + 2
    ensures var ws := RunWrites(g, txns) + CommitWrites(g, last.lh, last.vals)[..k];
            var home := UpdateAll(d.blocks, txns);
            OnDisk(ws, |d.blocks|)
            && MeansHome(Apply(d, ws), g, if k <= |last.lh| then home else UpdateHome(home, last))
  {
    RunCommits(d, g, txns);
    CommitsFrom(Apply(d, RunWrites(g, txns)), g, UpdateAll(d.blocks, txns), last, k);
    ApplyConcat(d, RunWrites(g, txns), CommitWrites(g, last.lh, last.vals)[..k]);
  }
}
