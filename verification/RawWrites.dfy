/** Raw block writes, and what they mean to a reader `head` of the header block. */
module RawWrites {
  import opened Bio
  import opened Collections
  import opened Recovery

  function Decode<B>(w: DiskWrite<B>, g: Geometry, head: B -> seq<nat>): Write<B> {
    if w.bn == g.start then PutHead(head(w.data)) else PutBlock(w.bn, w.data)
  }

  function Decoded<B>(ws: seq<DiskWrite<B>>, g: Geometry, head: B -> seq<nat>): (r: seq<Write<B>>)
    ensures |r| == |ws| && forall i | 0 <= i < |ws| :: r[i] == Decode(ws[i], g, head)
  {
    seq(|ws|, i requires 0 <= i < |ws| => Decode(ws[i], g, head))
  }

  ghost predicate RawOnDisk<B>(ws: seq<DiskWrite<B>>, size: nat) {
    forall i | 0 <= i < |ws| :: ws[i].bn < size
  }

  function RawApply<B>(d: seq<B>, ws: seq<DiskWrite<B>>): (r: seq<B>)
    requires RawOnDisk(ws, |d|)
    ensures |r| == |d|
  {
    if ws == [] then d else RawApply(d, ws[..|ws| - 1])[ws[|ws| - 1].bn := ws[|ws| - 1].data]
  }

  function RawLog<B>(g: Geometry, vals: seq<B>): (ws: seq<DiskWrite<B>>)
    ensures |ws| == |vals| && forall i | 0 <= i < |vals| :: ws[i] == DiskWrite(g.start + 1 + i, vals[i])
  {
    seq(|vals|, i requires 0 <= i < |vals| => DiskWrite(g.start + 1 + i, vals[i]))
  }

  function RawInstalls<B>(lh: seq<nat>, vals: seq<B>): (ws: seq<DiskWrite<B>>)
    requires |lh| == |vals|
    ensures |ws| == |lh| && forall i | 0 <= i < |lh| :: ws[i] == DiskWrite(lh[i], vals[i])
  {
    seq(|lh|, i requires 0 <= i < |lh| => DiskWrite(lh[i], vals[i]))
  }

  /** The values of the listed blocks. */
  function Gather<B>(v: seq<B>, lh: seq<nat>): (vals: seq<B>)
    requires forall i | 0 <= i < |lh| :: lh[i] < |v|
    ensures |vals| == |lh| && forall i | 0 <= i < |lh| :: vals[i] == v[lh[i]]
  {
    seq(|lh|, i requires 0 <= i < |lh| => v[lh[i]])
  }

  lemma GatherElsewhere<B>(v: seq<B>, lh: seq<nat>, bn: nat, x: B)
    requires (forall i | 0 <= i < |lh| :: lh[i] < |v| && lh[i] != bn) && bn < |v|
    ensures Gather(v[bn := x], lh) == Gather(v, lh)
  {
  }

  /** Log block i holds vals[i]. */
  ghost predicate LogHolds<B>(disk: seq<B>, g: Geometry, vals: seq<B>) {
    |vals| < g.size && g.start + g.size <= |disk| && forall i | 0 <= i < |vals| :: disk[g.start + 1 + i] == vals[i]
  }

  lemma LogHoldsElsewhere<B>(disk: seq<B>, g: Geometry, vals: seq<B>, bn: nat, x: B)
    requires LogHolds(disk, g, vals) && bn < |disk| && (bn == g.start || !g.InLog(bn))
    ensures LogHolds(disk[bn := x], g, vals)
  {
  }

  /** From (issued0, disk0), the first k of the writes `raw` have been carried out. */
  ghost predicate Wrote<B>(issued: seq<DiskWrite<B>>, disk: seq<B>, issued0: seq<DiskWrite<B>>, disk0: seq<B>,
                           raw: seq<DiskWrite<B>>, k: nat)
  {
    && k <= |raw| && RawOnDisk(raw, |disk0|)
    && issued == issued0 + raw[..k] && disk == RawApply(disk0, raw[..k])
  }

  lemma WroteStep<B>(issued: seq<DiskWrite<B>>, disk: seq<B>, issued0: seq<DiskWrite<B>>, disk0: seq<B>,
                     raw: seq<DiskWrite<B>>, k: nat)
    requires k < |raw| && Wrote(issued, disk, issued0, disk0, raw, k)
    ensures |disk| == |disk0| && raw[k].bn < |disk0|
    ensures Wrote(issued + [raw[k]], disk[raw[k].bn := raw[k].data], issued0, disk0, raw, k + 1)
  {
    assert raw[..k + 1][..k] == raw[..k];
    assert issued0 + raw[..k + 1] == issued0 + raw[..k] + [raw[k]];
  }

  lemma WrotePart<B>(issued: seq<DiskWrite<B>>, disk: seq<B>, issued0: seq<DiskWrite<B>>, disk0: seq<B>,
                     raw: seq<DiskWrite<B>>, k: nat)
    requires Wrote(issued, disk, issued0, disk0, raw, k)
    ensures Wrote(issued, disk, issued0, disk0, raw[..k], |raw[..k]|)
  {
    assert raw[..k][..k] == raw[..k];
  }

  lemma WroteSent<B>(issued: seq<DiskWrite<B>>, disk: seq<B>, issued0: seq<DiskWrite<B>>, disk0: seq<B>,
                     raw: seq<DiskWrite<B>>)
    requires Wrote(issued, disk, issued0, disk0, raw, |raw|)
    ensures RawOnDisk(raw, |disk0|) && |issued0| <= |issued| && issued[|issued0|..] == raw
  {
    assert raw[..|raw|] == raw;
  }

  lemma WroteNone<B>(issued: seq<DiskWrite<B>>, disk: seq<B>, raw: seq<DiskWrite<B>>)
    requires RawOnDisk(raw, |disk|)
    ensures Wrote(issued, disk, issued, disk, raw, 0)
  {
    assert raw[..0] == [] && issued + raw[..0] == issued;
  }

  lemma {:induction false} RawApplyConcat<B>(d: seq<B>, a: seq<DiskWrite<B>>, b: seq<DiskWrite<B>>)
    requires RawOnDisk(a, |d|) && RawOnDisk(b, |d|)
    ensures RawOnDisk(a + b, |d|) && RawApply(d, a + b) == RawApply(RawApply(d, a), b)
  {
    if b == [] {
      assert a + b == a;
    } else {
      var n := |b| - 1;
      RawApplyConcat(d, a, b[..n]);
      assert (a + b)[..|a| + n] == a + b[..n];
    }
  }

  /** Two complete runs of writes, one after the other. */
  lemma WroteThen<B>(i0: seq<DiskWrite<B>>, d0: seq<B>, a: seq<DiskWrite<B>>, i1: seq<DiskWrite<B>>, d1: seq<B>,
                     b: seq<DiskWrite<B>>, i2: seq<DiskWrite<B>>, d2: seq<B>)
    requires Wrote(i1, d1, i0, d0, a, |a|) && Wrote(i2, d2, i1, d1, b, |b|)
    ensures Wrote(i2, d2, i0, d0, a + b, |a + b|)
  {
    assert a[..|a|] == a && b[..|b|] == b && (a + b)[..|a + b|] == a + b;
    RawApplyConcat(d0, a, b);
  }

  lemma WroteOne<B>(i0: seq<DiskWrite<B>>, d0: seq<B>, w: DiskWrite<B>)
    requires w.bn < |d0|
    ensures Wrote(i0 + [w], d0[w.bn := w.data], i0, d0, [w], 1)
  {
    WroteNone(i0, d0, [w]);
    WroteStep(i0, d0, i0, d0, [w], 0);
  }

  lemma {:induction false} LogFilled<B>(d: seq<B>, g: Geometry, vals: seq<B>, k: nat)
    requires k <= |vals| < g.size && g.start + g.size <= |d|
    ensures RawOnDisk(RawLog(g, vals)[..k], |d|)
    ensures LogHolds(RawApply(d, RawLog(g, vals)[..k]), g, vals[..k])
  {
    if k > 0 {
      LogFilled(d, g, vals, k - 1);
      assert RawLog(g, vals)[..k][..k - 1] == RawLog(g, vals)[..k - 1];
    }
  }

  /** The raw writes of one commit with header blocks h1 and h2. */
  function RawCommit<B>(g: Geometry, lh: seq<nat>, vals: seq<B>, h1: B, h2: B): (ws: seq<DiskWrite<B>>)
    requires |lh| == |vals|
  {
    RawLog(g, vals) + [DiskWrite(g.start, h1)] + RawInstalls(lh, vals) + [DiskWrite(g.start, h2)]
  }

  /** What write_log has written up to log block k. */
  lemma DecodedLog<B>(g: Geometry, head: B -> seq<nat>, lh: seq<nat>, vals: seq<B>, k: nat)
    requires |lh| == |vals| && k <= |vals|
    ensures Decoded(RawLog(g, vals)[..k], g, head) == CommitWrites(g, lh, vals)[..k]
  {
  }

  /** What commit has written up to home block k. */
  lemma DecodedInstalls<B>(g: Geometry, head: B -> seq<nat>, lh: seq<nat>, vals: seq<B>, h1: B, k: nat, size: nat)
    requires |lh| == |vals| && k <= |vals| && Loggable(lh, g, size) && head(h1) == lh
    ensures Decoded(RawLog(g, vals) + [DiskWrite(g.start, h1)] + RawInstalls(lh, vals)[..k], g, head)
         == CommitWrites(g, lh, vals)[..|vals| + 1 + k]
  {
    assert Decoded(RawLog(g, vals), g, head) == LogWrites(g, vals);
    assert Decoded(RawInstalls(lh, vals)[..k], g, head) == Installs(lh, vals)[..k];
  }

  lemma DecodedCommit<B>(g: Geometry, head: B -> seq<nat>, lh: seq<nat>, vals: seq<B>, h1: B, h2: B, size: nat)
    requires |lh| == |vals| && Loggable(lh, g, size) && head(h1) == lh && head(h2) == []
    ensures Decoded(RawCommit(g, lh, vals, h1, h2), g, head) == CommitWrites(g, lh, vals)
  {
    assert Decoded(RawLog(g, vals), g, head) == LogWrites(g, vals);
    assert Decoded(RawInstalls(lh, vals), g, head) == Installs(lh, vals);
  }

  /** The disk as the recovery theory sees it. */
  function Abs<B>(d: seq<B>, g: Geometry, head: B -> seq<nat>): LogDisk<B>
    requires g.start < |d|
  {
    LogDisk(head(d[g.start]), d)
  }

  /** `a` stands for the raw disk `d`: same header list, same blocks but for the header block. */
  ghost predicate Represents<B>(a: LogDisk<B>, d: seq<B>, g: Geometry, head: B -> seq<nat>) {
    && g.start < |d| == |a.blocks|
    && a.head == head(d[g.start])
    && forall h | 0 <= h < |d| && h != g.start :: a.blocks[h] == d[h]
  }

  /** Decoding commutes with writing: the raw disk and the recovery theory stay in step. */
  lemma {:induction false} DecodedApply<B>(d: seq<B>, g: Geometry, head: B -> seq<nat>, ws: seq<DiskWrite<B>>)
    requires g.start < |d| && RawOnDisk(ws, |d|)
    ensures OnDisk(Decoded(ws, g, head), |d|)
    ensures Represents(Apply(Abs(d, g, head), Decoded(ws, g, head)), RawApply(d, ws), g, head)
  {
    if ws != [] {
      var n := |ws| - 1;
      DecodedApply(d, g, head, ws[..n]);
      assert Decoded(ws, g, head)[..n] == Decoded(ws[..n], g, head);
    }
  }

  lemma RepresentsMeaning<B>(a: LogDisk<B>, d: seq<B>, g: Geometry, head: B -> seq<nat>, home: seq<B>)
    requires Represents(a, d, g, head) && MeansHome(a, g, home)
    ensures MeansHome(Abs(d, g, head), g, home)
  {
    var c := Abs(d, g, head);
    forall h | 0 <= h < |home| && !g.InLog(h) ensures Meaning(c, g, h) == home[h] {
      assert Meaning(a, g, h) == home[h];
      if i :| 0 <= i < |c.head| && c.head[i] == h {
        MeaningOfListed(a, g, i);
        MeaningOfListed(c, g, i);
      }
    }
  }

  lemma DecodedCut<B>(g: Geometry, head: B -> seq<nat>, raw: seq<DiskWrite<B>>, ws: seq<Write<B>>, k: nat)
    requires k <= |raw| <= |ws| && Decoded(raw, g, head) == ws[..|raw|]
    ensures Decoded(raw[..k], g, head) == ws[..k]
  {
    assert Decoded(raw[..k], g, head) == Decoded(raw, g, head)[..k] == ws[..k];
  }

  /**
   Crash atomicity of raw commits, complete or cut short by a panic: stop after any k of the
   block writes and the disk means the old home blocks up to the header write, and the new
   ones from it on.
   */
  lemma CrashInCommit<B>(d: seq<B>, g: Geometry, head: B -> seq<nat>, raw: seq<DiskWrite<B>>, lh: seq<nat>,
                         vals: seq<B>, new_: seq<B>, k: nat)
    requires Loggable(lh, g, |d|) && g.start + g.size <= |d| && head(d[g.start]) == []
    requires Updated(d, g, lh, vals, new_)
    requires RawOnDisk(raw, |d|) && k <= |raw| <= 2 * |lh| + 2
    requires Decoded(raw, g, head) == CommitWrites(g, lh, vals)[..|raw|]
    ensures MeansHome(Abs(RawApply(d, raw[..k]), g, head), g, if k <= |lh| then d else new_)
  {
    hide RawApply, MeansHome, CommitWrites, Decoded, Distinct;
    DecodedApply(d, g, head, raw[..k]);
    DecodedCut(g, head, raw, CommitWrites(g, lh, vals), k);
    CommitIsAtomic(Abs(d, g, head), g, lh, vals, new_, k);
    RepresentsMeaning(Apply(Abs(d, g, head), Decoded(raw[..k], g, head)), RawApply(d, raw[..k]), g, head,
                      if k <= |lh| then d else new_);
  }

  /** A complete commit leaves an empty header and the new home blocks. */
  lemma AfterCommit<B>(d: seq<B>, g: Geometry, head: B -> seq<nat>, raw: seq<DiskWrite<B>>, lh: seq<nat>, vals: seq<B>,
                       new_: seq<B>)
    requires Loggable(lh, g, |d|) && g.start + g.size <= |d| && head(d[g.start]) == []
    requires Updated(d, g, lh, vals, new_)
    requires RawOnDisk(raw, |d|) && Decoded(raw, g, head) == CommitWrites(g, lh, vals)
    ensures head(RawApply(d, raw)[g.start]) == [] && SameHome(RawApply(d, raw), g, new_)
  {
    DecodedApply(d, g, head, raw);
    var all := CommitWrites(g, lh, vals);
    assert all[..|all|] == all;
    CommitIsAtomic(Abs(d, g, head), g, lh, vals, new_, |all|);
  }

  lemma CommitEffect<B>(i0: seq<DiskWrite<B>>, d0: seq<B>, i1: seq<DiskWrite<B>>, d1: seq<B>, g: Geometry,
                        head: B -> seq<nat>, lh: seq<nat>, vals: seq<B>, h1: B, h2: B, new_: seq<B>)
    requires Loggable(lh, g, |d0|) && g.start + g.size <= |d0| && head(d0[g.start]) == []
    requires Updated(d0, g, lh, vals, new_) && head(h1) == lh && head(h2) == []
    requires Wrote(i1, d1, i0, d0, RawCommit(g, lh, vals, h1, h2), |RawCommit(g, lh, vals, h1, h2)|)
    ensures Decoded(RawCommit(g, lh, vals, h1, h2), g, head) == CommitWrites(g, lh, vals)
    ensures |d1| == |d0| && head(d1[g.start]) == [] && SameHome(d1, g, new_)
  {
    var raw := RawCommit(g, lh, vals, h1, h2);
    assert raw[..|raw|] == raw;
    DecodedCommit(g, head, lh, vals, h1, h2, |d0|);
    AfterCommit(d0, g, head, raw, lh, vals, new_);
  }

  /** A recovery cut short after any k of its block writes keeps the meaning of the disk. */
  lemma CrashInRecovery<B>(d: seq<B>, g: Geometry, head: B -> seq<nat>, raw: seq<DiskWrite<B>>, home: seq<B>, k: nat)
    requires g.start < |d| && MeansHome(Abs(d, g, head), g, home)
    requires RawOnDisk(raw, |d|) && Decoded(raw, g, head) == RecoveryWrites(Abs(d, g, head), g) && k <= |raw|
    ensures MeansHome(Abs(RawApply(d, raw[..k]), g, head), g, home)
  {
    DecodedApply(d, g, head, raw[..k]);
    assert Decoded(raw[..k], g, head) == Decoded(raw, g, head)[..k];
    RecoveryIsRestartable(Abs(d, g, head), g, home, k);
    RepresentsMeaning(Apply(Abs(d, g, head), Decoded(raw[..k], g, head)), RawApply(d, raw[..k]), g, head, home);
  }

  /** A complete recovery leaves an empty header and the home blocks that the crashed disk meant. */
  lemma RecoveryEffect<B>(i0: seq<DiskWrite<B>>, d0: seq<B>, i1: seq<DiskWrite<B>>, d1: seq<B>, g: Geometry,
                          head: B -> seq<nat>, vals: seq<B>, h2: B, home: seq<B>)
    requires g.start < |d0| && MeansHome(Abs(d0, g, head), g, home)
    requires |vals| == |head(d0[g.start])| && LogHolds(d0, g, vals) && head(h2) == []
    requires Wrote(i1, d1, i0, d0, RawInstalls(head(d0[g.start]), vals) + [DiskWrite(g.start, h2)], |vals| + 1)
    ensures Decoded(RawInstalls(head(d0[g.start]), vals) + [DiskWrite(g.start, h2)], g, head)
            == RecoveryWrites(Abs(d0, g, head), g)
    ensures |d1| == |d0| && head(d1[g.start]) == [] && SameHome(d1, g, home)
  {
    var lh := head(d0[g.start]);
    var a := Abs(d0, g, head);
    var raw := RawInstalls(lh, vals) + [DiskWrite(g.start, h2)];
    assert raw[..|raw|] == raw;
    assert LoggedValues(a, g) == vals;
    assert Decoded(RawInstalls(lh, vals), g, head) == Installs(lh, vals);
    assert Decoded(raw, g, head) == RecoveryWrites(a, g);
    DecodedApply(d0, g, head, raw);
    assert RecoveryWrites(a, g)[..|lh| + 1] == RecoveryWrites(a, g);
    RecoveryIsRestartable(a, g, home, |lh| + 1);
  }
}
