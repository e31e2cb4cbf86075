/** The flat byte array behind an inode, and what block-level changes do to it. */
module FileBytes {
  import opened Keys
  import opened Blocks
  import opened FsLayout
  import opened Ownership

  const MAXBYTES: nat := MAXFILE * BSIZE

  /** The slot bmap uses for the bn'th block of a file. */
  function FileSlot(bn: nat): (i: nat)
    requires bn < MAXFILE
    ensures i < SLOTS && i != NDIRECT
  {
    if bn < NDIRECT then bn else bn + 1
  }

  function FileBlock(sb: Super, blk: Image, addrs: seq<nat>, bn: nat): nat
    requires ImageOk(sb, blk) && |addrs| == NDIRECT + 1 && bn < MAXFILE
  {
    Slot(sb, blk, addrs, FileSlot(bn))
  }

  /** Byte k of the file; an unmapped block reads as zeros. */
  function FileByte(sb: Super, blk: Image, addrs: seq<nat>, k: nat): Byte
    requires ImageOk(sb, blk) && |addrs| == NDIRECT + 1 && k < MAXBYTES
  {
    var p := FileBlock(sb, blk, addrs, k / BSIZE);
    if Data(sb, p) then blk[p][k % BSIZE] else 0
  }

  /** The contents of a file of the given size. */
  function Content(sb: Super, blk: Image, addrs: seq<nat>, size: nat): (c: seq<Byte>)
    requires ImageOk(sb, blk) && |addrs| == NDIRECT + 1 && size <= MAXBYTES
    ensures |c| == size
  {
    seq(size, k requires 0 <= k < size => FileByte(sb, blk, addrs, k))
  }

  /** The file of inode x, as the disk has it. */
  function FileOf(sb: Super, blk: Image, x: nat): seq<Byte>
    requires ImageOk(sb, blk) && x < sb.ninodes
  {
    var size := InodeWord(sb, blk, x, 2);
    if size <= MAXBYTES then Content(sb, blk, DiskAddrs(sb, blk, x), size) else []
  }

  /** Every block below size is mapped. */
  predicate NoHoles(sb: Super, blk: Image, addrs: seq<nat>, size: nat)
    requires ImageOk(sb, blk) && |addrs| == NDIRECT + 1
  {
    size <= MAXBYTES && forall bn: nat :: bn < MAXFILE && bn * BSIZE < size ==> FileBlock(sb, blk, addrs, bn) != 0
  }

  /** Slot i of inode x, as the disk has it. */
  function DiskSlot(sb: Super, blk: Image, x: nat, i: nat): nat
    requires ImageOk(sb, blk) && x < sb.ninodes && i < SLOTS
  {
    Slot(sb, blk, DiskAddrs(sb, blk, x), i)
  }

  /** No pointer of another inode has moved. */
  ghost predicate OtherSlots(sb: Super, blk: Image, blk': Image, inum: nat)
    requires ImageOk(sb, blk) && ImageOk(sb, blk')
  {
    forall x: nat, i: nat :: x < sb.ninodes && x != inum && i < SLOTS ==>
      DiskSlot(sb, blk', x, i) == DiskSlot(sb, blk, x, i)
  }

  /** From pointers compared with the inode in memory to pointers compared on disk. */
  lemma SlotsOnDisk(sb: Super, blk: Image, cur: Cur, blk': Image, cur': Cur)
    requires ImageOk(sb, blk) && ImageOk(sb, blk') && CurOk(sb, cur) && CurOk(sb, cur') && cur'.inum == cur.inum
    requires forall x: nat, i: nat :: x < sb.ninodes && x != cur.inum && i < SLOTS ==>
               Ptr(sb, blk', cur', x, i) == Ptr(sb, blk, cur, x, i)
    ensures OtherSlots(sb, blk, blk', cur.inum)
  {
    forall x: nat, i: nat | x < sb.ninodes && x != cur.inum && i < SLOTS
      ensures DiskSlot(sb, blk', x, i) == DiskSlot(sb, blk, x, i)
    {
      assert Ptr(sb, blk', cur', x, i) == Ptr(sb, blk, cur, x, i);
    }
  }

  /** Every file reads the same, byte for byte, and no other inode's pointers have moved. */
  ghost predicate SameFiles(sb: Super, blk: Image, cur: Cur, blk': Image, cur': Cur) {
    ImageOk(sb, blk) && ImageOk(sb, blk') && CurOk(sb, cur) && CurOk(sb, cur') && cur.inum == cur'.inum &&
    (forall x: nat, k: nat :: x < sb.ninodes && k < MAXBYTES ==>
       FileByte(sb, blk', Addrs(sb, blk', cur', x), k) == FileByte(sb, blk, Addrs(sb, blk, cur, x), k)) &&
    (forall x: nat :: x < sb.ninodes ==> blk'[IBlock(sb, x)] == blk[IBlock(sb, x)]) &&
    OtherSlots(sb, blk, blk', cur.inum) &&
    (forall bn: nat :: bn < MAXFILE && FileBlock(sb, blk, cur.addrs, bn) != 0 ==>
       FileBlock(sb, blk', cur'.addrs, bn) == FileBlock(sb, blk, cur.addrs, bn))
  }

  lemma SameTrans(sb: Super, blk: Image, cur: Cur, blk1: Image, cur1: Cur, blk2: Image, cur2: Cur)
    requires SameFiles(sb, blk, cur, blk1, cur1) && SameFiles(sb, blk1, cur1, blk2, cur2)
    ensures SameFiles(sb, blk, cur, blk2, cur2)
  {}

  lemma ZeroBytes()
    ensures forall k :: 0 <= k < BSIZE ==> Zeroed()[k] == 0
  {}

  lemma FilesSame(sb: Super, blk: Image, blk': Image, cur: Cur, owner: Owners)
    requires ImageOk(sb, blk) && CurOk(sb, cur) && Linked(sb, blk, cur, owner)
    requires ImageOk(sb, blk') && SameSlots(sb, blk, blk', cur)
    requires forall x: nat :: x < sb.ninodes ==> blk'[IBlock(sb, x)] == blk[IBlock(sb, x)]
    requires forall c :: c in owner && owner[c].1 != NDIRECT ==> c < |blk'| && c < |blk| && blk'[c] == blk[c]
    ensures SameFiles(sb, blk, cur, blk', cur)
  {
    forall x: nat, k: nat | x < sb.ninodes && k < MAXBYTES
      ensures FileByte(sb, blk', Addrs(sb, blk', cur, x), k) == FileByte(sb, blk, Addrs(sb, blk, cur, x), k)
    {
      assert SeeSlot(x, FileSlot(k / BSIZE)) && See(Ptr(sb, blk, cur, x, FileSlot(k / BSIZE)));
      assert Ptr(sb, blk', cur, x, FileSlot(k / BSIZE)) == Ptr(sb, blk, cur, x, FileSlot(k / BSIZE));
    }
    forall bn: nat | bn < MAXFILE
      ensures FileBlock(sb, blk', cur.addrs, bn) == FileBlock(sb, blk, cur.addrs, bn)
    {
      assert Ptr(sb, blk', cur, cur.inum, FileSlot(bn)) == Ptr(sb, blk, cur, cur.inum, FileSlot(bn));
    }
    SlotsOnDisk(sb, blk, cur, blk', cur);
  }

  /** balloc touches no block that any file reads. */
  lemma AllocateSame(sb: Super, blk: Image, cur: Cur, owner: Owners, b: nat)
    requires Owned(sb, blk, cur, owner, {}) && Data(sb, b) && !InUse(sb, blk, b)
    ensures SameFiles(sb, blk, cur, Allocated(sb, blk, b), cur)
  {
    AllocatedSlots(sb, blk, cur, owner, b);
    FilesSame(sb, blk, Allocated(sb, blk, b), cur, owner);
  }

  /** Linking a zeroed block into an empty slot changes no byte of any file. */
  lemma LinkSame(sb: Super, blk: Image, cur: Cur, blk': Image, cur': Cur, i: nat, b: nat)
    requires ImageOk(sb, blk) && CurOk(sb, cur) && ImageOk(sb, blk') && CurOk(sb, cur') && cur'.inum == cur.inum
    requires i < SLOTS && OneSlot(sb, blk, cur, blk', cur', cur.inum, i, b) && Ptr(sb, blk, cur, cur.inum, i) == 0
    requires Data(sb, b) && blk'[b] == Zeroed()
    requires forall x: nat, j: nat :: x < sb.ninodes && j < SLOTS && j != NDIRECT ==>
               var p := Ptr(sb, blk, cur, x, j); Data(sb, p) ==> blk'[p] == blk[p]
    requires forall x: nat :: x < sb.ninodes ==> blk'[IBlock(sb, x)] == blk[IBlock(sb, x)]
    ensures SameFiles(sb, blk, cur, blk', cur')
  {
    ZeroBytes();
    forall x: nat, k: nat | x < sb.ninodes && k < MAXBYTES
      ensures FileByte(sb, blk', Addrs(sb, blk', cur', x), k) == FileByte(sb, blk, Addrs(sb, blk, cur, x), k)
    {
      var j := FileSlot(k / BSIZE);
      assert Ptr(sb, blk', cur', x, j) == if x == cur.inum && j == i then b else Ptr(sb, blk, cur, x, j);
    }
    forall bn: nat | bn < MAXFILE && FileBlock(sb, blk, cur.addrs, bn) != 0
      ensures FileBlock(sb, blk', cur'.addrs, bn) == FileBlock(sb, blk, cur.addrs, bn)
    {
      assert Ptr(sb, blk', cur', cur.inum, FileSlot(bn)) == Ptr(sb, blk, cur, cur.inum, FileSlot(bn));
    }
    SlotsOnDisk(sb, blk, cur, blk', cur');
  }

  // ---------- writing bytes ----------

  /** The file of cur takes s at offset off; every other byte of every file, and all inode blocks, stay. */
  ghost predicate Wrote(sb: Super, blk: Image, cur: Cur, blk': Image, cur': Cur, off: nat, s: seq<Byte>) {
    ImageOk(sb, blk) && ImageOk(sb, blk') && CurOk(sb, cur) && CurOk(sb, cur') && cur.inum == cur'.inum &&
    off + |s| <= MAXBYTES &&
    (forall k: nat :: k < MAXBYTES ==>
       FileByte(sb, blk', cur'.addrs, k) == if off <= k < off + |s| then s[k - off]
         else FileByte(sb, blk, cur.addrs, k)) &&
    OthersSame(sb, blk, blk', cur.inum) && blk'[IBlock(sb, cur.inum)] == blk[IBlock(sb, cur.inum)] &&
    (forall bn: nat :: bn < MAXFILE && FileBlock(sb, blk, cur.addrs, bn) != 0 ==>
       FileBlock(sb, blk', cur'.addrs, bn) == FileBlock(sb, blk, cur.addrs, bn))
  }

  /** Every other inode has the record, the blocks and the bytes it had. */
  ghost predicate OthersSame(sb: Super, blk: Image, blk': Image, inum: nat) {
    ImageOk(sb, blk) && ImageOk(sb, blk') && OtherSlots(sb, blk, blk', inum) &&
    (forall x: nat, k: nat :: x < sb.ninodes && x != inum && k < 16 ==>
      InodeWord(sb, blk', x, k) == InodeWord(sb, blk, x, k)) &&
    (forall x: nat, k: nat :: x < sb.ninodes && x != inum && k < MAXBYTES ==>
       FileByte(sb, blk', DiskAddrs(sb, blk', x), k) == FileByte(sb, blk, DiskAddrs(sb, blk, x), k))
  }

  lemma OtherFile(sb: Super, blk: Image, blk': Image, inum: nat, x: nat)
    requires OthersSame(sb, blk, blk', inum) && x < sb.ninodes && x != inum
    ensures FileOf(sb, blk', x) == FileOf(sb, blk, x)
  {
    assert InodeWord(sb, blk', x, 2) == InodeWord(sb, blk, x, 2);
  }

  lemma SameWrote(sb: Super, blk: Image, cur: Cur, blk': Image, cur': Cur, off: nat)
    requires SameFiles(sb, blk, cur, blk', cur') && off <= MAXBYTES
    ensures Wrote(sb, blk, cur, blk', cur', off, [])
  {
    assert Addrs(sb, blk, cur, cur.inum) == cur.addrs && Addrs(sb, blk', cur', cur.inum) == cur'.addrs;
    forall x: nat, k: nat | x < sb.ninodes && x != cur.inum && k < MAXBYTES
      ensures FileByte(sb, blk', DiskAddrs(sb, blk', x), k) == FileByte(sb, blk, DiskAddrs(sb, blk, x), k)
    {
      assert Addrs(sb, blk, cur, x) == DiskAddrs(sb, blk, x) && Addrs(sb, blk', cur', x) == DiskAddrs(sb, blk', x);
    }
  }

  lemma WroteMore(sb: Super, blk: Image, cur: Cur, blk1: Image, cur1: Cur, blk2: Image, cur2: Cur, off: nat,
                  s: seq<Byte>, t: seq<Byte>)
    requires Wrote(sb, blk, cur, blk1, cur1, off, s) && Wrote(sb, blk1, cur1, blk2, cur2, off + |s|, t)
    ensures Wrote(sb, blk, cur, blk2, cur2, off, s + t)
  {}

  /** memmove(bp->data + at, src, m). */
  function Splice(b: Block, at: nat, s: seq<Byte>): (r: Block)
    requires at + |s| <= BSIZE
  {
    b[..at] + s + b[at + |s|..]
  }

  /** Storing into the block behind offset off writes exactly those bytes of that file. */
  lemma SpliceWrote(sb: Super, blk: Image, cur: Cur, owner: Owners, off: nat, s: seq<Byte>)
    requires Owned(sb, blk, cur, owner, {}) && off < MAXBYTES && off % BSIZE + |s| <= BSIZE
    requires FileBlock(sb, blk, cur.addrs, off / BSIZE) != 0
    ensures off + |s| <= MAXBYTES
    ensures var p := FileBlock(sb, blk, cur.addrs, off / BSIZE);
            && Data(sb, p)
            && var blk' := blk[p := Splice(blk[p], off % BSIZE, s)];
            Owned(sb, blk', cur, owner, {}) && Wrote(sb, blk, cur, blk', cur, off, s)
  {
    var i := FileSlot(off / BSIZE);
    var p := FileBlock(sb, blk, cur.addrs, off / BSIZE);
    PtrOwned(sb, blk, cur, owner, {}, cur.inum, i);
    var blk' := blk[p := Splice(blk[p], off % BSIZE, s)];
    WriteData(sb, blk, cur, owner, p, blk'[p]);
    Regions(sb, blk);
    forall x: nat, k: nat | x < sb.ninodes && k < MAXBYTES
      ensures FileByte(sb, blk', Addrs(sb, blk', cur, x), k) ==
                if x == cur.inum && off <= k < off + |s| then s[k - off]
                  else FileByte(sb, blk, Addrs(sb, blk, cur, x), k)
    {
      ByteAfterSplice(sb, blk, blk', cur, owner, off, s, x, k);
    }
    forall x: nat | x < sb.ninodes && x != cur.inum
      ensures Addrs(sb, blk, cur, x) == DiskAddrs(sb, blk, x) && Addrs(sb, blk', cur, x) == DiskAddrs(sb, blk', x)
    {}
    forall bn: nat | bn < MAXFILE
      ensures FileBlock(sb, blk', cur.addrs, bn) == FileBlock(sb, blk, cur.addrs, bn)
    {
      assert Ptr(sb, blk', cur, cur.inum, FileSlot(bn)) == Ptr(sb, blk, cur, cur.inum, FileSlot(bn));
    }
    SlotsOnDisk(sb, blk, cur, blk', cur);
  }

  lemma SpliceAt(b: Block, off: nat, s: seq<Byte>, k: nat)
    requires off % BSIZE + |s| <= BSIZE
    ensures off <= k < off + |s| ==> k / BSIZE == off / BSIZE
    ensures k / BSIZE == off / BSIZE ==>
              Splice(b, off % BSIZE, s)[k % BSIZE] == if off <= k < off + |s| then s[k - off] else b[k % BSIZE]
  {
    if k / BSIZE == off / BSIZE {
      assert k - off == k % BSIZE - off % BSIZE;
    }
  }

  lemma ByteAfterSplice(sb: Super, blk: Image, blk': Image, cur: Cur, owner: Owners, off: nat, s: seq<Byte>, x: nat,
                        k: nat)
    requires Owned(sb, blk, cur, owner, {}) && off < MAXBYTES && off % BSIZE + |s| <= BSIZE
    requires x < sb.ninodes && k < MAXBYTES
    requires var p := FileBlock(sb, blk, cur.addrs, off / BSIZE);
             p != 0 && p < |blk| && blk' == blk[p := Splice(blk[p], off % BSIZE, s)] && SameSlots(sb, blk, blk', cur)
    ensures FileByte(sb, blk', Addrs(sb, blk', cur, x), k) ==
              if x == cur.inum && off <= k < off + |s| then s[k - off] else FileByte(sb, blk, Addrs(sb, blk, cur, x), k)
  {
    var p := FileBlock(sb, blk, cur.addrs, off / BSIZE);
    var (i, j) := (FileSlot(off / BSIZE), FileSlot(k / BSIZE));
    PtrOwned(sb, blk, cur, owner, {}, cur.inum, i);
    SpliceAt(blk[p], off, s, k);
    var q := Ptr(sb, blk, cur, x, j);
    assert Ptr(sb, blk', cur, x, j) == q;
    if q != 0 {
      PtrOwned(sb, blk, cur, owner, {}, x, j);
    }
  }

  /** bmap's step and memmove's step together. */
  lemma ChunkWrote(sb: Super, blk: Image, cur: Cur, blk1: Image, cur1: Cur, owner: Owners, off: nat, s: seq<Byte>)
    requires SameFiles(sb, blk, cur, blk1, cur1) && Owned(sb, blk1, cur1, owner, {})
    requires off < MAXBYTES && off % BSIZE + |s| <= BSIZE && FileBlock(sb, blk1, cur1.addrs, off / BSIZE) != 0
    ensures off + |s| <= MAXBYTES
    ensures var p := FileBlock(sb, blk1, cur1.addrs, off / BSIZE);
            && Data(sb, p)
            && var blk2 := blk1[p := Splice(blk1[p], off % BSIZE, s)];
            && Owned(sb, blk2, cur1, owner, {}) && Wrote(sb, blk, cur, blk2, cur1, off, s)
            && FileBlock(sb, blk2, cur1.addrs, off / BSIZE) == p
  {
    SameWrote(sb, blk, cur, blk1, cur1, off);
    SpliceWrote(sb, blk1, cur1, owner, off, s);
    var p := FileBlock(sb, blk1, cur1.addrs, off / BSIZE);
    WroteMore(sb, blk, cur, blk1, cur1, blk1[p := Splice(blk1[p], off % BSIZE, s)], cur1, off, [], s);
    assert [] + s == s;
  }

  /** The blocks below the end of a chunk written at most at the end of the file are all mapped. */
  lemma ChunkNoHoles(sb: Super, blk: Image, cur: Cur, blk': Image, cur': Cur, off: nat, s: seq<Byte>, end: nat)
    requires Wrote(sb, blk, cur, blk', cur', off, s) && NoHoles(sb, blk, cur.addrs, end) && off <= end && s != []
    requires off % BSIZE + |s| <= BSIZE && FileBlock(sb, blk', cur'.addrs, off / BSIZE) != 0
    ensures NoHoles(sb, blk', cur'.addrs, if off + |s| > end then off + |s| else end)
  {
    forall bn: nat | bn < MAXFILE && (bn * BSIZE < end || bn * BSIZE < off + |s|)
      ensures FileBlock(sb, blk', cur'.addrs, bn) != 0
    {
      if bn * BSIZE >= end {
        assert bn == off / BSIZE;
      }
    }
  }

  // ---------- the whole disk ----------

  /** The blocks of inode x below its size are all there. */
  predicate Mapped(sb: Super, blk: Image, x: nat)
    requires ImageOk(sb, blk) && x < sb.ninodes
  {
    NoHoles(sb, blk, DiskAddrs(sb, blk, x), InodeWord(sb, blk, x, 2))
  }

  /** Every block has one owner, the bitmap marks exactly the blocks in use, and no file has a hole. */
  ghost predicate Whole(sb: Super, blk: Image, owner: Owners) {
    && ImageOk(sb, blk) && 0 < sb.ninodes && Owned(sb, blk, Cur(0, DiskAddrs(sb, blk, 0)), owner, {})
    && forall x :: 0 <= x < sb.ninodes ==> Mapped(sb, blk, x)
  }

  ghost predicate Consistent(sb: Super, blk: Image) {
    exists owner :: Whole(sb, blk, owner)
  }

  lemma OtherMapped(sb: Super, blk: Image, blk': Image, inum: nat, x: nat)
    requires OthersSame(sb, blk, blk', inum) && x < sb.ninodes && x != inum && Mapped(sb, blk, x)
    ensures Mapped(sb, blk', x)
  {
    assert InodeWord(sb, blk', x, 2) == InodeWord(sb, blk, x, 2);
    forall bn: nat | bn < MAXFILE
      ensures FileBlock(sb, blk', DiskAddrs(sb, blk', x), bn) == FileBlock(sb, blk, DiskAddrs(sb, blk, x), bn)
    {
      assert DiskSlot(sb, blk', x, FileSlot(bn)) == DiskSlot(sb, blk, x, FileSlot(bn));
    }
  }

  /** What an operation on inode inum leaves behind is whole again. */
  lemma WholeAgain(sb: Super, blk: Image, owner0: Owners, blk': Image, cur: Cur, owner: Owners)
    requires Whole(sb, blk, owner0) && OthersSame(sb, blk, blk', cur.inum) && Owned(sb, blk', cur, owner, {})
    requires DiskAddrs(sb, blk', cur.inum) == cur.addrs && Mapped(sb, blk', cur.inum)
    ensures Whole(sb, blk', owner)
  {
    Rebase(sb, blk', cur, owner, 0);
    forall x | 0 <= x < sb.ninodes
      ensures Mapped(sb, blk', x)
    {
      if x != cur.inum {
        OtherMapped(sb, blk, blk', cur.inum, x);
      }
    }
  }

  lemma ConsistentAgain(sb: Super, blk: Image, blk': Image, cur: Cur, owner: Owners)
    requires OthersSame(sb, blk, blk', cur.inum) && Owned(sb, blk', cur, owner, {})
    requires DiskAddrs(sb, blk', cur.inum) == cur.addrs && Mapped(sb, blk', cur.inum)
    ensures Consistent(sb, blk) ==> Consistent(sb, blk')
  {
    if Consistent(sb, blk) {
      var owner0 :| Whole(sb, blk, owner0);
      WholeAgain(sb, blk, owner0, blk', cur, owner);
    }
  }
}
