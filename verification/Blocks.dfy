/** Disk blocks as the kernel sees them: BSIZE bytes, read as little-endian
    32-bit words (log header, indirect blocks) or as single bits (free map). */
module Blocks {

  const BSIZE: nat := 512
  const WORDS: nat := 128   // BSIZE / sizeof(uint)
  const BPB: nat := 4096    // bitmap bits per block, BSIZE*8

  type Byte = x: int | 0 <= x < 256
  type Word = x: int | 0 <= x < 0x1_0000_0000
  type Block = b: seq<Byte> | |b| == BSIZE witness seq(BSIZE, i => 0)

  /** A block of zeroes. */
  function ZeroBlock(): (b: Block)
    ensures forall i :: 0 <= i < BSIZE ==> b[i] == 0
  {
    seq(BSIZE, i => 0)
  }

  // ---- 32-bit words ----

  function GetWord(b: Block, i: nat): (w: Word)
    requires i < WORDS
  {
    var b0: int, b1: int, b2: int, b3: int := b[4 * i], b[4 * i + 1], b[4 * i + 2], b[4 * i + 3];
    b0 + 256 * b1 + 65536 * b2 + 16777216 * b3
  }

  /** Storing a word makes that word readable back and disturbs no other word. */
  function PutWord(b: Block, i: nat, w: Word): (r: Block)
    requires i < WORDS
    ensures GetWord(r, i) == w
    ensures forall j: nat :: j < WORDS && j != i ==> GetWord(r, j) == GetWord(b, j)
  {
    Recompose(w);
    b[4 * i := w % 256][4 * i + 1 := w / 256 % 256][4 * i + 2 := w / 65536 % 256][4 * i + 3 := w / 16777216]
  }

  lemma Recompose(w: Word)
    ensures w % 256 + 256 * (w / 256 % 256) + 65536 * (w / 65536 % 256) + 16777216 * (w / 16777216) == w
  {
  }

  lemma ZeroWords(i: nat)
    requires i < WORDS
    ensures GetWord(ZeroBlock(), i) == 0
  {
  }

  // ---- bits of the free map ----

  /** Bit k of x, read off after k halvings. */
  predicate ByteBit(x: nat, k: nat)
  {
    if k == 0 then x % 2 == 1 else ByteBit(x / 2, k - 1)
  }

  function BitsOf(x: nat, n: nat): (s: seq<bool>)
    ensures |s| == n
    ensures forall k: nat :: k < n ==> s[k] == ByteBit(x, k)
    decreases n
  {
    if n == 0 then [] else [x % 2 == 1] + BitsOf(x / 2, n - 1)
  }

  function FromBits(s: seq<bool>): (x: nat)
    requires |s| <= 8
    ensures x < [1, 2, 4, 8, 16, 32, 64, 128, 256][|s|]
    ensures forall k: nat :: k < |s| ==> ByteBit(x, k) == s[k]
  {
    if s == [] then 0 else
    var rest := FromBits(s[1..]);
    var x := (if s[0] then 1 else 0) + 2 * rest;
    assert x / 2 == rest;
    assert forall k: nat :: 0 < k < |s| ==> s[k] == s[1..][k - 1];
    x
  }

  /** Bit k of x takes the value v, the other bits stay. */
  function PutByteBit(x: Byte, k: nat, v: bool): (r: Byte)
    requires k < 8
    ensures forall j: nat :: j < 8 ==> ByteBit(r, j) == if j == k then v else ByteBit(x, j)
  {
    FromBits(BitsOf(x, 8)[k := v])
  }

  predicate GetBit(b: Block, i: nat)
    requires i < BPB
  {
    ByteBit(b[i / 8], i % 8)
  }

  lemma OtherBit(i: nat, j: nat)
    requires i != j
    ensures i / 8 != j / 8 || i % 8 != j % 8
  {
  }

  function PutBit(b: Block, i: nat, v: bool): (r: Block)
    requires i < BPB
    ensures GetBit(r, i) == v
    ensures forall j: nat :: j < BPB && j != i ==> GetBit(r, j) == GetBit(b, j)
  {
    var r: Block := b[i / 8 := PutByteBit(b[i / 8], i % 8, v)];
    assert forall j: nat :: j < BPB && j != i ==> GetBit(r, j) == GetBit(b, j) by {
      forall j: nat | j < BPB && j != i
        ensures GetBit(r, j) == GetBit(b, j)
      {
        OtherBit(i, j);
      }
    }
    r
  }
}
