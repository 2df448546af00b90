/**
 The on-disk log header (struct logheader): word 0 is n, words 1.. are block[0..n).
 */
module LogHeader {
  import opened Blocks
  import opened Recovery

  function Count(b: Block): nat {
    GetWord(b, 0)
  }

  /** The block numbers a header block lists; the struct ends with the block. */
  function HeaderList(b: Block): (lh: seq<nat>)
    ensures |lh| == (if Count(b) < WORDS then Count(b) else WORDS - 1)
    ensures forall i | 0 <= i < |lh| :: lh[i] == GetWord(b, 1 + i)
  {
    seq(if Count(b) < WORDS then Count(b) else WORDS - 1, i requires 0 <= i < WORDS - 1 => GetWord(b, 1 + i))
  }

  ghost predicate Storable(lh: seq<nat>) {
    |lh| <= LOGSIZE && forall i | 0 <= i < |lh| :: lh[i] < 0x1_0000_0000
  }

  /** struct logheader on the bytes: n in the first four, block[j] at 4 + 4 * j. */
  lemma HeaderOnBytes(b: Block, lh: seq<nat>)
    requires |lh| < WORDS && GetWord(b, 0) == |lh| && forall j: nat | j < |lh| :: lh[j] == GetWord(b, 1 + j)
    ensures WordAt(b, 0, |lh|) && forall j: nat | j < |lh| :: lh[j] < 0x1_0000_0000 && WordAt(b, 4 + 4 * j, lh[j])
  {
    hide WordAt, GetWord;
    WordOnBytes(b, 0, |lh|);
    forall j: nat | j < |lh| ensures lh[j] < 0x1_0000_0000 && WordAt(b, 4 + 4 * j, lh[j]) {
      WordOnBytes(b, 1 + j, lh[j]);
      assert 4 * (1 + j) == 4 + 4 * j;
    }
  }

  /** The loop of read_head: what it copies is what the header lists. */
  method ReadHeader(b: Block) returns (lh: seq<nat>)
    requires Count(b) <= LOGSIZE
    ensures lh == HeaderList(b)
    ensures |lh| < 128 && WordAt(b, 0, |lh|)
    ensures forall j: nat | j < |lh| :: lh[j] < 0x1_0000_0000 && WordAt(b, 4 + 4 * j, lh[j])
  {
    lh := [];
    var n := Count(b);
    while |lh| < n
      invariant |lh| <= n
      invariant forall j | 0 <= j < |lh| :: lh[j] == GetWord(b, 1 + j)
    {
      lh := lh + [GetWord(b, 1 + |lh|)];
    }
    HeaderOnBytes(b, lh);
  }

  /** The stores of write_head: a reader of the new block finds exactly lh, and words past it keep their value. */
  method WriteHeader(b: Block, lh: seq<nat>) returns (r: Block)
    requires Storable(lh)
    ensures HeaderList(r) == lh
    ensures forall j | |lh| < j < WORDS :: GetWord(r, j) == GetWord(b, j)
    ensures WordAt(r, 0, |lh|) && forall j: nat | j < |lh| :: WordAt(r, 4 + 4 * j, lh[j])
  {
    r := PutWord(b, 0, |lh|);
    var i := 0;
    while i < |lh|
      invariant 0 <= i <= |lh|
      invariant GetWord(r, 0) == |lh|
      invariant forall j | 0 <= j < i :: GetWord(r, 1 + j) == lh[j]
      invariant forall j | |lh| < j < WORDS :: GetWord(r, j) == GetWord(b, j)
    {
      r := PutWord(r, 1 + i, lh[i]);
      i := i + 1;
    }
    HeaderOnBytes(r, lh);
  }
}
