/** On-disk structures of fs.h: superblock regions, the free bitmap, inodes and indirect blocks. */
module FsLayout {
  import opened Words
  import opened Blocks

  const NDIRECT: nat := 12
  const NINDIRECT: nat := 128
  const MAXFILE: nat := 140
  const SLOTS: nat := 141 // 12 direct pointers, the indirect pointer, 128 indirect pointers
  const BPB: nat := 4096
  const IPB: nat := 8

  datatype Super = Super(size: nat, ninodes: nat, inodestart: nat, bmapstart: nat)

  /** First data block: mkfs puts size/BPB + 1 bitmap blocks before it. */
  function DataStart(sb: Super): nat {
    sb.bmapstart + sb.size / BPB + 1
  }

  predicate SuperOk(sb: Super) {
    0 < sb.inodestart && sb.inodestart + sb.ninodes / IPB < sb.bmapstart && DataStart(sb) <= sb.size < U32
  }

  function IBlock(sb: Super, inum: nat): nat {
    inum / IPB + sb.inodestart
  }

  function BBlock(sb: Super, b: nat): nat {
    b / BPB + sb.bmapstart
  }

  type Image = seq<Block>

  predicate ImageOk(sb: Super, blk: Image) {
    SuperOk(sb) && sb.size <= |blk|
  }

  predicate Data(sb: Super, b: nat) {
    DataStart(sb) <= b < sb.size
  }

  // ---------- bits ----------

  /** 1 << k. */
  function Mask(k: nat): (m: nat)
    ensures m > 0
  {
    if k == 0 then 1 else 2 * Mask(k - 1)
  }

  predicate BitOf(v: nat, k: nat) {
    if k == 0 then v % 2 == 1 else BitOf(v / 2, k - 1)
  }

  /** Adding to or taking from the higher bits leaves the lowest bit alone. */
  lemma Halves(v: nat, m: nat)
    ensures (v + 2 * m) / 2 == v / 2 + m && (v + 2 * m) % 2 == v % 2
    ensures v / 2 >= m ==> v >= 2 * m && (v - 2 * m) / 2 == v / 2 - m && (v - 2 * m) % 2 == v % 2
  {
  }

  /** v | m and v & ~m for the mask m of bit k, as the code applies them to a clear and to a set bit. */
  lemma {:induction false} FlipBit(v: nat, k: nat, j: nat, n: nat)
    requires k < n && j < n && v < Mask(n)
    ensures !BitOf(v, k) ==> v + Mask(k) < Mask(n) && (BitOf(v + Mask(k), j) <==> j == k || BitOf(v, j))
    ensures BitOf(v, k) ==> v >= Mask(k) && (BitOf(v - Mask(k), j) <==> j != k && BitOf(v, j))
  {
    if k == 0 {
      FlipLowest(v, j, n);
    } else {
      var m := Mask(k - 1);
      Halves(v, m);
      FlipBit(v / 2, k - 1, if j == 0 then 0 else j - 1, n - 1);
    }
  }

  lemma FlipLowest(v: nat, j: nat, n: nat)
    requires j < n && v < Mask(n)
    ensures !BitOf(v, 0) ==> v + 1 < Mask(n) && (BitOf(v + 1, j) <==> j == 0 || BitOf(v, j))
    ensures BitOf(v, 0) ==> v >= 1 && (BitOf(v - 1, j) <==> j != 0 && BitOf(v, j))
  {
    var h := Mask(n - 1);
    assert Mask(n) == 2 * h;
    if v % 2 == 0 {
      assert (v + 1) / 2 == v / 2;
    } else {
      assert (v - 1) / 2 == v / 2;
    }
  }

  lemma ByteMask()
    ensures Mask(8) == 256
  {
    assert Mask(4) == 16;
  }

  /** The bitmap bit of block b, within its bitmap block. */
  predicate BlockBit(bm: Block, bi: nat)
    requires bi < BPB
  {
    BitOf(bm[bi / 8], bi % 8)
  }

  function SetBlockBit(bm: Block, bi: nat): (r: Block)
    requires bi < BPB && !BlockBit(bm, bi)
    ensures forall j :: 0 <= j < BPB ==> (BlockBit(r, j) <==> j == bi || BlockBit(bm, j))
  {
    ByteMask();
    FlipBit(bm[bi / 8], bi % 8, 0, 8);
    var r: Block := bm[bi / 8 := bm[bi / 8] + Mask(bi % 8)];
    assert forall j :: 0 <= j < BPB ==> (BlockBit(r, j) <==> j == bi || BlockBit(bm, j)) by {
      forall j | 0 <= j < BPB
        ensures BlockBit(r, j) <==> j == bi || BlockBit(bm, j)
      {
        FlipBit(bm[bi / 8], bi % 8, j % 8, 8);
      }
    }
    r
  }

  function ClearBlockBit(bm: Block, bi: nat): (r: Block)
    requires bi < BPB && BlockBit(bm, bi)
    ensures forall j :: 0 <= j < BPB ==> (BlockBit(r, j) <==> j != bi && BlockBit(bm, j))
  {
    ByteMask();
    FlipBit(bm[bi / 8], bi % 8, 0, 8);
    var r: Block := bm[bi / 8 := bm[bi / 8] - Mask(bi % 8)];
    assert forall j :: 0 <= j < BPB ==> (BlockBit(r, j) <==> j != bi && BlockBit(bm, j)) by {
      forall j | 0 <= j < BPB
        ensures BlockBit(r, j) <==> j != bi && BlockBit(bm, j)
      {
        FlipBit(bm[bi / 8], bi % 8, j % 8, 8);
      }
    }
    r
  }
}
