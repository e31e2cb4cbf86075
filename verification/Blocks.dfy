/** Disk blocks as byte sequences, and the 32-bit little-endian words stored in them. */
module Blocks {
  import opened Words

  const BSIZE: nat := 512
  const WORDS: nat := 128

  type Byte = x: int | 0 <= x < 256
  type Block = b: seq<Byte> | |b| == BSIZE witness Zeroed()

  /** What memset(bp->data, 0, BSIZE) leaves. */
  function Zeroed(): seq<Byte> {
    seq(BSIZE, i => 0)
  }

  /** The uint at word index i of a block. */
  function Get32(b: Block, i: nat): (v: nat)
    requires i < WORDS
    ensures v < U32
  {
    var (b0: int, b1: int, b2: int, b3: int) := (b[4 * i], b[4 * i + 1], b[4 * i + 2], b[4 * i + 3]);
    b0 + 0x100 * b1 + 0x1_0000 * b2 + 0x100_0000 * b3
  }

  /** Stores the uint v at word index i of a block. */
  function Put32(b: Block, i: nat, v: nat): (c: Block)
    requires i < WORDS && v < U32
    ensures Get32(c, i) == v
    ensures forall j: nat :: j < WORDS && j != i ==> Get32(c, j) == Get32(b, j)
  {
    var (q1, q2, q3) := (v / 0x100, v / 0x100 / 0x100, v / 0x100 / 0x100 / 0x100);
    b[4 * i := v % 0x100][4 * i + 1 := q1 % 0x100][4 * i + 2 := q2 % 0x100][4 * i + 3 := q3]
  }

  lemma ZeroedWords(i: nat)
    requires i < WORDS
    ensures Get32(Zeroed(), i) == 0
  {}

  /** c with s written over it from off on, longer if s reaches past the end. */
  function Overlay(c: seq<Byte>, off: nat, s: seq<Byte>): seq<Byte>
    requires off <= |c|
  {
    c[..off] + s + if off + |s| < |c| then c[off + |s|..] else []
  }
}
