/**
 Disk blocks as bytes, with the little-endian 32-bit words that the kernel reads by
 casting a block to `struct logheader *`, `struct dinode *` or `uint *`, and the single
 bits that the free map uses.
 */
module Blocks {

  const BSIZE: nat := 512
  const WORDS: nat := 128

  type Byte = x: int | 0 <= x < 256
  type Word = x: int | 0 <= x < 0x1_0000_0000
  type Block = b: seq<Byte> | |b| == BSIZE witness seq(BSIZE, _ => 0)
  type Disk = seq<Block>

  function Zeros(): (b: Block)
    ensures forall i | 0 <= i < WORDS :: GetWord(b, i) == 0
  {
    seq(BSIZE, _ => 0)
  }

  function Combine(b0: int, b1: int, b2: int, b3: int): int {
    b0 + 0x100 * b1 + 0x1_0000 * b2 + 0x100_0000 * b3
  }

  function GetWord(b: Block, i: nat): Word
    requires i < WORDS
  {
    Combine(b[4 * i], b[4 * i + 1], b[4 * i + 2], b[4 * i + 3])
  }

  function WordBytes(v: Word): (s: seq<Byte>)
    ensures |s| == 4
    ensures v == Combine(s[0], s[1], s[2], s[3])
  {
    var v1 := v / 0x100;
    var v2 := v1 / 0x100;
    [v % 0x100, v1 % 0x100, v2 % 0x100, v2 / 0x100]
  }

  /** Overwriting part of a block, as memmove into bp->data + at does. */
  function Overwrite(b: Block, at: nat, s: seq<Byte>): (r: Block)
    requires at + |s| <= BSIZE
    ensures forall k | 0 <= k < BSIZE :: r[k] == if at <= k < at + |s| then s[k - at] else b[k]
  {
    b[..at] + s + b[at + |s|..]
  }

  /** Storing a word: it reads back, and no other word changes. */
  function PutWord(b: Block, i: nat, v: Word): (r: Block)
    requires i < WORDS
    ensures GetWord(r, i) == v
    ensures forall j | 0 <= j < WORDS && j != i :: GetWord(r, j) == GetWord(b, j)
  {
    Overwrite(b, 4 * i, WordBytes(v))
  }

  /** Storing consecutive words: they read back, and no other word changes. */
  function PutWords(b: Block, at: nat, ws: seq<Word>): (r: Block)
    requires at + |ws| <= WORDS
    ensures forall j | 0 <= j < WORDS :: GetWord(r, j) == if at <= j < at + |ws| then ws[j - at] else GetWord(b, j)
    decreases |ws|
  {
    if ws == [] then b
    else
      var n := |ws| - 1;
      PutWord(PutWords(b, at, ws[..n]), at + n, ws[n])
  }

  // ---- Words on bytes ----

  /** The four bytes at offset at hold v, the low byte first. */
  predicate WordAt(b: Block, at: nat, v: Word)
    requires at + 4 <= 512
  {
    && b[at] == v % 0x100 && b[at + 1] == v / 0x100 % 0x100
    && b[at + 2] == v / 0x1_0000 % 0x100 && b[at + 3] == v / 0x100_0000
  }

  lemma WordOnBytes(b: Block, i: nat, v: Word)
    requires i < WORDS
    ensures GetWord(b, i) == v <==> WordAt(b, 4 * i, v)
  {
    Digits(b[4 * i], b[4 * i + 1], b[4 * i + 2], b[4 * i + 3], v);
  }

  lemma Digits(b0: Byte, b1: Byte, b2: Byte, b3: Byte, v: Word)
    ensures b0 + 0x100 * b1 + 0x1_0000 * b2 + 0x100_0000 * b3 == v <==>
            b0 == v % 0x100 && b1 == v / 0x100 % 0x100 && b2 == v / 0x1_0000 % 0x100 && b3 == v / 0x100_0000
  {
    var v1, v2, v3 := v / 0x100, v / 0x1_0000, v / 0x100_0000;
    assert v2 == v1 / 0x100 && v3 == v2 / 0x100;
    LastDigit(b0, b1 + 0x100 * (b2 + 0x100 * b3), v);
    LastDigit(b1, b2 + 0x100 * b3, v1);
    LastDigit(b2, b3, v2);
  }

  lemma LastDigit(b: Byte, rest: nat, v: nat)
    ensures b + 0x100 * rest == v <==> b == v % 0x100 && rest == v / 0x100
  {
  }

  // ---- Bits of the free map: bit k is bit k % 8 of byte k / 8 ----

  const BPB: nat := 4096

  function Exp2(n: nat): (r: nat)
    ensures r > 0
  {
    if n == 0 then 1 else 2 * Exp2(n - 1)
  }

  /** Bit k of x. */
  predicate NatBit(x: nat, k: nat)
    decreases k
  {
    if k == 0 then x % 2 == 1 else NatBit(x / 2, k - 1)
  }

  /** x with bit k set (x | 1 << k) or cleared (x & ~(1 << k)), within w bits. */
  function PutBit(x: nat, k: nat, on: bool, w: nat): (r: nat)
    requires k < w && x < Exp2(w)
    ensures r < Exp2(w) && forall j | 0 <= j :: NatBit(r, j) <==> if j == k then on else NatBit(x, j)
    decreases k
  {
    if k == 0 then x - x % 2 + (if on then 1 else 0)
    else
      var half := PutBit(x / 2, k - 1, on, w - 1);
      var r := x % 2 + 2 * half;
      assert forall j | 1 <= j :: NatBit(r, j) == NatBit(half, j - 1) && NatBit(x, j) == NatBit(x / 2, j - 1);
      r
  }

  function PutByteBit(x: Byte, k: nat, on: bool): (r: Byte)
    requires k < 8
    ensures forall j | 0 <= j :: NatBit(r, j) <==> if j == k then on else NatBit(x, j)
  {
    assert Exp2(8) == 256 by {
      assert Exp2(4) == 16;
    }
    PutBit(x, k, on, 8)
  }

  predicate Bit(b: Block, k: nat)
    requires k < BPB
  {
    NatBit(b[k / 8], k % 8)
  }

  function SetBit(b: Block, k: nat): (r: Block)
    requires k < BPB
    ensures forall j | 0 <= j < BPB :: Bit(r, j) <==> j == k || Bit(b, j)
  {
    b[k / 8 := PutByteBit(b[k / 8], k % 8, true)]
  }

  function ClearBit(b: Block, k: nat): (r: Block)
    requires k < BPB
    ensures forall j | 0 <= j < BPB :: Bit(r, j) <==> j != k && Bit(b, j)
  {
    b[k / 8 := PutByteBit(b[k / 8], k % 8, false)]
  }
}
