/** Which inode slot owns each data block, and why allocation, linking and freeing keep that exact. */
module Ownership {
  import opened Keys
  import opened Blocks
  import opened FsLayout

  predicate InUse(sb: Super, blk: Image, b: nat)
    requires ImageOk(sb, blk) && b < sb.size
  {
    BlockBit(blk[BBlock(sb, b)], b % BPB)
  }

  /** Word k of inode inum's 64-byte record. */
  function InodeWord(sb: Super, blk: Image, inum: nat, k: nat): nat
    requires ImageOk(sb, blk) && inum < sb.ninodes && k < 16
  {
    Get32(blk[IBlock(sb, inum)], 16 * (inum % IPB) + k)
  }

  /** addrs[] of the on-disk inode. */
  function DiskAddrs(sb: Super, blk: Image, inum: nat): (a: seq<nat>)
    requires ImageOk(sb, blk) && inum < sb.ninodes
    ensures |a| == NDIRECT + 1
  {
    seq(NDIRECT + 1, k requires 0 <= k < NDIRECT + 1 => InodeWord(sb, blk, inum, 3 + k))
  }

  /** The inode being worked on, as it stands in memory. */
  datatype Cur = Cur(inum: nat, addrs: seq<nat>)

  predicate CurOk(sb: Super, cur: Cur) {
    cur.inum < sb.ninodes && |cur.addrs| == NDIRECT + 1
  }

  function Addrs(sb: Super, blk: Image, cur: Cur, inum: nat): (a: seq<nat>)
    requires ImageOk(sb, blk) && CurOk(sb, cur) && inum < sb.ninodes
    ensures |a| == NDIRECT + 1
  {
    if inum == cur.inum then cur.addrs else DiskAddrs(sb, blk, inum)
  }

  /** The block number in slot i: direct, the indirect block itself, or an entry of it; 0 for none. */
  function Slot(sb: Super, blk: Image, addrs: seq<nat>, i: nat): nat
    requires ImageOk(sb, blk) && |addrs| == NDIRECT + 1 && i < SLOTS
  {
    if i <= NDIRECT then addrs[i]
    else if Data(sb, addrs[NDIRECT]) then Get32(blk[addrs[NDIRECT]], i - NDIRECT - 1)
    else 0
  }

  function Ptr(sb: Super, blk: Image, cur: Cur, inum: nat, i: nat): nat
    requires ImageOk(sb, blk) && CurOk(sb, cur) && inum < sb.ninodes && i < SLOTS
  {
    Slot(sb, blk, Addrs(sb, blk, cur, inum), i)
  }

  type Owners = map<nat, (nat, nat)>

  /**
   The bits set in the bitmap are exactly the metadata blocks, the blocks some inode slot points to
   (each from one slot only), and the blocks in `loose`, allocated and not linked yet.
   */
  ghost predicate Owned(sb: Super, blk: Image, cur: Cur, owner: Owners, loose: set<nat>) {
    ImageOk(sb, blk) && CurOk(sb, cur) && Linked(sb, blk, cur, owner) && Marked(sb, blk, owner, loose)
  }

  // The two halves of Linked are used at one slot or one block, which See and SeeSlot name.

  /** Every nonzero slot points to a data block recorded as its own, and every record is such a slot. */
  ghost predicate Linked(sb: Super, blk: Image, cur: Cur, owner: Owners)
    requires ImageOk(sb, blk) && CurOk(sb, cur)
  {
    (forall x: nat, i: nat {:trigger SeeSlot(x, i)} ::
       SeeSlot(x, i) && x < sb.ninodes && i < SLOTS && Ptr(sb, blk, cur, x, i) != 0 ==>
         Ptr(sb, blk, cur, x, i) in owner && owner[Ptr(sb, blk, cur, x, i)] == (x, i)) &&
    (forall b: nat {:trigger See(b)} ::
       See(b) && b in owner ==>
         Data(sb, b) && owner[b].0 < sb.ninodes && owner[b].1 < SLOTS && Ptr(sb, blk, cur, owner[b].0, owner[b].1) == b)
  }

  ghost predicate Marked(sb: Super, blk: Image, owner: Owners, loose: set<nat>)
    requires ImageOk(sb, blk)
  {
    (forall b :: 0 <= b < sb.size ==> (InUse(sb, blk, b) <==> b < DataStart(sb) || b in owner || b in loose)) &&
    (forall b :: b in loose ==> Data(sb, b) && b !in owner)
  }

  lemma PtrOwned(sb: Super, blk: Image, cur: Cur, owner: Owners, loose: set<nat>, x: nat, i: nat)
    requires Owned(sb, blk, cur, owner, loose) && x < sb.ninodes && i < SLOTS
    ensures var p := Ptr(sb, blk, cur, x, i); p != 0 ==> p in owner && owner[p] == (x, i) && Data(sb, p)
  {
    assert SeeSlot(x, i) && See(Ptr(sb, blk, cur, x, i));
  }

  lemma OwnerPtr(sb: Super, blk: Image, cur: Cur, owner: Owners, loose: set<nat>, b: nat)
    requires Owned(sb, blk, cur, owner, loose) && b in owner
    ensures Data(sb, b) && owner[b].0 < sb.ninodes && owner[b].1 < SLOTS &&
            Ptr(sb, blk, cur, owner[b].0, owner[b].1) == b
  {
    assert See(b);
  }

  lemma Regions(sb: Super, blk: Image)
    requires ImageOk(sb, blk)
    ensures forall x: nat :: x < sb.ninodes ==> sb.inodestart <= IBlock(sb, x) < sb.bmapstart
    ensures forall b: nat :: b < sb.size ==> sb.bmapstart <= BBlock(sb, b) < DataStart(sb)
  {
    forall x: nat | x < sb.ninodes
      ensures IBlock(sb, x) < sb.bmapstart
    {
      assert x / IPB <= sb.ninodes / IPB;
    }
    forall b: nat | b < sb.size
      ensures BBlock(sb, b) < DataStart(sb)
    {
      assert b / BPB <= sb.size / BPB;
    }
  }

  /** balloc's change: the bit set, the block zeroed. */
  function Allocated(sb: Super, blk: Image, b: nat): (r: Image)
    requires ImageOk(sb, blk) && Data(sb, b) && !InUse(sb, blk, b)
    ensures |r| == |blk|
  {
    assert BBlock(sb, b) < DataStart(sb) by { assert b / BPB <= sb.size / BPB; }
    blk[BBlock(sb, b) := SetBlockBit(blk[BBlock(sb, b)], b % BPB)][b := Zeroed()]
  }

  lemma AllocatedBits(sb: Super, blk: Image, b: nat)
    requires ImageOk(sb, blk) && Data(sb, b) && !InUse(sb, blk, b)
    ensures forall c :: 0 <= c < sb.size ==> (InUse(sb, Allocated(sb, blk, b), c) <==> c == b || InUse(sb, blk, c))
  {
    Regions(sb, blk);
    forall c | 0 <= c < sb.size
      ensures InUse(sb, Allocated(sb, blk, b), c) <==> c == b || InUse(sb, blk, c)
    {
      assert c / BPB == b / BPB && c % BPB == b % BPB ==> c == b;
    }
  }

  lemma AllocatedSlots(sb: Super, blk: Image, cur: Cur, owner: Owners, b: nat)
    requires Owned(sb, blk, cur, owner, {}) && Data(sb, b) && !InUse(sb, blk, b)
    ensures SameSlots(sb, blk, Allocated(sb, blk, b), cur)
    ensures forall x: nat :: x < sb.ninodes ==> Allocated(sb, blk, b)[IBlock(sb, x)] == blk[IBlock(sb, x)]
    ensures forall c :: c in owner ==> Data(sb, c) && Allocated(sb, blk, b)[c] == blk[c]
  {
    var blk' := Allocated(sb, blk, b);
    Regions(sb, blk);
    forall c | c in owner
      ensures Data(sb, c) && blk'[c] == blk[c]
    {
      OwnerPtr(sb, blk, cur, owner, {}, c);
    }
    forall x: nat, i: nat | x < sb.ninodes && i < SLOTS
      ensures Ptr(sb, blk', cur, x, i) == Ptr(sb, blk, cur, x, i)
    {
      SameInode(sb, blk, blk', cur, x);
      PtrOwned(sb, blk, cur, owner, {}, x, NDIRECT);
    }
  }

  lemma SameInode(sb: Super, blk: Image, blk': Image, cur: Cur, x: nat)
    requires ImageOk(sb, blk) && ImageOk(sb, blk') && CurOk(sb, cur) && x < sb.ninodes &&
             blk'[IBlock(sb, x)] == blk[IBlock(sb, x)]
    ensures Addrs(sb, blk', cur, x) == Addrs(sb, blk, cur, x)
  {
  }

  lemma AllocateOwned(sb: Super, blk: Image, cur: Cur, owner: Owners, b: nat)
    requires Owned(sb, blk, cur, owner, {}) && Data(sb, b) && !InUse(sb, blk, b)
    ensures Owned(sb, Allocated(sb, blk, b), cur, owner, {b})
  {
    AllocatedBits(sb, blk, b);
    AllocatedSlots(sb, blk, cur, owner, b);
  }

  // ---------- linking a loose block ----------

  /** The slot (x, i) starts to point to b; every other slot stays. */
  ghost predicate OneSlot(sb: Super, blk: Image, cur: Cur, blk': Image, cur': Cur, x: nat, i: nat, b: nat)
    requires ImageOk(sb, blk) && CurOk(sb, cur) && ImageOk(sb, blk') && CurOk(sb, cur')
  {
    forall y: nat, j: nat :: y < sb.ninodes && j < SLOTS ==>
      Ptr(sb, blk', cur', y, j) == if y == x && j == i then b else Ptr(sb, blk, cur, y, j)
  }

  lemma LinkOne(sb: Super, blk: Image, cur: Cur, owner: Owners, blk': Image, cur': Cur, x: nat, i: nat, b: nat)
    requires ImageOk(sb, blk) && CurOk(sb, cur) && ImageOk(sb, blk') && CurOk(sb, cur')
    requires Linked(sb, blk, cur, owner) && OneSlot(sb, blk, cur, blk', cur', x, i, b)
    requires x < sb.ninodes && i < SLOTS && Ptr(sb, blk, cur, x, i) == 0 && Data(sb, b) && b !in owner
    ensures Linked(sb, blk', cur', owner[b := (x, i)])
  {}

  lemma MarkOne(sb: Super, blk: Image, owner: Owners, blk': Image, b: nat, slot: (nat, nat))
    requires ImageOk(sb, blk) && Marked(sb, blk, owner, {b}) && SameBits(sb, blk, blk')
    ensures Marked(sb, blk', owner[b := slot], {})
  {}

  predicate SameBits(sb: Super, blk: Image, blk': Image) {
    ImageOk(sb, blk) && ImageOk(sb, blk') && forall c :: 0 <= c < sb.size ==>
      (InUse(sb, blk', c) <==> InUse(sb, blk, c))
  }

  lemma DataKeepsBits(sb: Super, blk: Image, b: nat, v: Block)
    requires ImageOk(sb, blk) && Data(sb, b)
    ensures SameBits(sb, blk, blk[b := v])
  {
    Regions(sb, blk);
  }

  lemma LinkAddr(sb: Super, blk: Image, cur: Cur, owner: Owners, b: nat, k: nat)
    requires Owned(sb, blk, cur, owner, {b}) && k <= NDIRECT && cur.addrs[k] == 0
    requires k == NDIRECT ==> blk[b] == Zeroed()
    ensures Owned(sb, blk, cur.(addrs := cur.addrs[k := b]), owner[b := (cur.inum, k)], {})
  {
    var cur' := cur.(addrs := cur.addrs[k := b]);
    assert Data(sb, b);
    AddrSlots(sb, blk, cur, b, k);
    LinkOne(sb, blk, cur, owner, blk, cur', cur.inum, k, b);
    MarkOne(sb, blk, owner, blk, b, (cur.inum, k));
  }

  lemma AddrSlots(sb: Super, blk: Image, cur: Cur, b: nat, k: nat)
    requires ImageOk(sb, blk) && CurOk(sb, cur) && k <= NDIRECT && cur.addrs[k] == 0 && Data(sb, b)
    requires k == NDIRECT ==> blk[b] == Zeroed()
    ensures OneSlot(sb, blk, cur, blk, cur.(addrs := cur.addrs[k := b]), cur.inum, k, b)
  {
    forall w: nat | w < WORDS
      ensures Get32(Zeroed(), w) == 0
    {
      ZeroedWords(w);
    }
  }

  /** No other inode has this one's indirect block. */
  lemma OneIndirect(sb: Super, blk: Image, cur: Cur, owner: Owners, loose: set<nat>)
    requires Owned(sb, blk, cur, owner, loose) && cur.addrs[NDIRECT] != 0
    ensures forall x: nat :: x < sb.ninodes && x != cur.inum ==> Addrs(sb, blk, cur, x)[NDIRECT] != cur.addrs[NDIRECT]
  {
    PtrOwned(sb, blk, cur, owner, loose, cur.inum, NDIRECT);
    forall x: nat | x < sb.ninodes && x != cur.inum
      ensures Addrs(sb, blk, cur, x)[NDIRECT] != cur.addrs[NDIRECT]
    {
      PtrOwned(sb, blk, cur, owner, loose, x, NDIRECT);
    }
  }

  lemma LinkEntry(sb: Super, blk: Image, cur: Cur, owner: Owners, b: nat, j: nat)
    requires Owned(sb, blk, cur, owner, {b}) && j < NINDIRECT && cur.addrs[NDIRECT] != 0
    requires Slot(sb, blk, cur.addrs, NDIRECT + 1 + j) == 0
    ensures Data(sb, cur.addrs[NDIRECT])
    ensures var a := cur.addrs[NDIRECT];
            Owned(sb, blk[a := Put32(blk[a], j, b)], cur, owner[b := (cur.inum, NDIRECT + 1 + j)], {})
  {
    var a := cur.addrs[NDIRECT];
    PtrOwned(sb, blk, cur, owner, {b}, cur.inum, NDIRECT);
    var blk' := blk[a := Put32(blk[a], j, b)];
    OneIndirect(sb, blk, cur, owner, {b});
    EntrySlots(sb, blk, cur, a, b, j);
    LinkOne(sb, blk, cur, owner, blk', cur, cur.inum, NDIRECT + 1 + j, b);
    DataKeepsBits(sb, blk, a, blk'[a]);
    MarkOne(sb, blk, owner, blk', b, (cur.inum, NDIRECT + 1 + j));
  }

  lemma EntrySlots(sb: Super, blk: Image, cur: Cur, a: nat, b: nat, j: nat)
    requires ImageOk(sb, blk) && CurOk(sb, cur) && Data(sb, a) && cur.addrs[NDIRECT] == a && Data(sb, b) &&
             j < NINDIRECT
    requires forall x: nat :: x < sb.ninodes && x != cur.inum ==> Addrs(sb, blk, cur, x)[NDIRECT] != a
    ensures OneSlot(sb, blk, cur, blk[a := Put32(blk[a], j, b)], cur, cur.inum, NDIRECT + 1 + j, b)
  {
    var blk' := blk[a := Put32(blk[a], j, b)];
    Regions(sb, blk);
    forall y: nat, i: nat | y < sb.ninodes && i < SLOTS
      ensures Ptr(sb, blk', cur, y, i) == if y == cur.inum && i == NDIRECT + 1 + j then b else Ptr(sb, blk, cur, y, i)
    {
      assert Addrs(sb, blk', cur, y) == Addrs(sb, blk, cur, y);
    }
  }

  // ---------- writing file data, and the inode itself ----------

  ghost predicate SameSlots(sb: Super, blk: Image, blk': Image, cur: Cur)
    requires ImageOk(sb, blk) && CurOk(sb, cur) && ImageOk(sb, blk')
  {
    forall x: nat, i: nat :: x < sb.ninodes && i < SLOTS ==> Ptr(sb, blk', cur, x, i) == Ptr(sb, blk, cur, x, i)
  }

  lemma OwnedSame(sb: Super, blk: Image, blk': Image, cur: Cur, owner: Owners, loose: set<nat>)
    requires Owned(sb, blk, cur, owner, loose) && ImageOk(sb, blk') && SameSlots(sb, blk, blk', cur) &&
             SameBits(sb, blk, blk')
    ensures Owned(sb, blk', cur, owner, loose)
  {}

  /** A data block nobody uses as an indirect block can change freely. */
  lemma DataKeepsSlots(sb: Super, blk: Image, cur: Cur, b: nat, v: Block)
    requires ImageOk(sb, blk) && CurOk(sb, cur) && Data(sb, b)
    requires forall x: nat :: x < sb.ninodes ==> Addrs(sb, blk, cur, x)[NDIRECT] != b
    ensures SameSlots(sb, blk, blk[b := v], cur)
  {
    var blk' := blk[b := v];
    Regions(sb, blk);
    forall x: nat, i: nat | x < sb.ninodes && i < SLOTS
      ensures Ptr(sb, blk', cur, x, i) == Ptr(sb, blk, cur, x, i)
    {
      assert Addrs(sb, blk', cur, x) == Addrs(sb, blk, cur, x);
    }
  }

  lemma WriteData(sb: Super, blk: Image, cur: Cur, owner: Owners, b: nat, v: Block)
    requires Owned(sb, blk, cur, owner, {}) && b in owner && owner[b].1 != NDIRECT && Data(sb, b)
    ensures Owned(sb, blk[b := v], cur, owner, {}) && SameSlots(sb, blk, blk[b := v], cur)
  {
    forall x: nat | x < sb.ninodes
      ensures Addrs(sb, blk, cur, x)[NDIRECT] != b
    {
      PtrOwned(sb, blk, cur, owner, {}, x, NDIRECT);
    }
    DataKeepsSlots(sb, blk, cur, b, v);
    DataKeepsBits(sb, blk, b, v);
    OwnedSame(sb, blk, blk[b := v], cur, owner, {});
  }

  /** A new inode block that differs only in inode cur.inum's record. */
  lemma WriteInode(sb: Super, blk: Image, cur: Cur, owner: Owners, loose: set<nat>, v: Block)
    requires Owned(sb, blk, cur, owner, loose)
    requires forall w: nat :: w < WORDS && w / 16 != cur.inum % IPB ==>
             Get32(v, w) == Get32(blk[IBlock(sb, cur.inum)], w)
    ensures sb.inodestart <= IBlock(sb, cur.inum) < sb.bmapstart
    ensures var blk' := blk[IBlock(sb, cur.inum) := v];
            && Owned(sb, blk', cur, owner, loose)
            && forall x: nat :: x < sb.ninodes && x != cur.inum ==> DiskAddrs(sb, blk', x) == DiskAddrs(sb, blk, x)
  {
    Regions(sb, blk);
    var blk' := blk[IBlock(sb, cur.inum) := v];
    forall x: nat | x < sb.ninodes && x != cur.inum
      ensures DiskAddrs(sb, blk', x) == DiskAddrs(sb, blk, x)
    {
      forall k: nat | k < 16
        ensures InodeWord(sb, blk', x, k) == InodeWord(sb, blk, x, k)
      {
        if IBlock(sb, x) == IBlock(sb, cur.inum) {
          assert x % IPB != cur.inum % IPB;
          assert (16 * (x % IPB) + k) / 16 == x % IPB;
        }
      }
    }
    assert forall c :: 0 <= c < sb.size ==> (InUse(sb, blk', c) <==> InUse(sb, blk, c));
    forall x: nat, i: nat | x < sb.ninodes && i < SLOTS
      ensures Ptr(sb, blk', cur, x, i) == Ptr(sb, blk, cur, x, i)
    {
      assert Addrs(sb, blk', cur, x) == Addrs(sb, blk, cur, x);
    }
  }

  /** Once the inode in memory equals the one on disk, ownership can be read from any inode's side. */
  lemma Rebase(sb: Super, blk: Image, cur: Cur, owner: Owners, x: nat)
    requires Owned(sb, blk, cur, owner, {}) && DiskAddrs(sb, blk, cur.inum) == cur.addrs && x < sb.ninodes
    ensures Owned(sb, blk, Cur(x, DiskAddrs(sb, blk, x)), owner, {})
  {
    var cur' := Cur(x, DiskAddrs(sb, blk, x));
    assert forall y: nat :: y < sb.ninodes ==> Addrs(sb, blk, cur', y) == Addrs(sb, blk, cur, y);
    assert forall y: nat, i: nat :: y < sb.ninodes && i < SLOTS ==> Ptr(sb, blk, cur', y, i) == Ptr(sb, blk, cur, y, i);
  }

  // ---------- unlinking and freeing ----------

  lemma UnlinkAddr(sb: Super, blk: Image, cur: Cur, owner: Owners, k: nat)
    requires Owned(sb, blk, cur, owner, {}) && k < NDIRECT && cur.addrs[k] != 0
    ensures Owned(sb, blk, cur.(addrs := cur.addrs[k := 0]), owner - {cur.addrs[k]}, {cur.addrs[k]})
  {
    var (b, cur') := (cur.addrs[k], cur.(addrs := cur.addrs[k := 0]));
    PtrOwned(sb, blk, cur, owner, {}, cur.inum, k);
    assert OneSlot(sb, blk, cur, blk, cur', cur.inum, k, 0);
    UnlinkOne(sb, blk, cur, owner, cur', k);
  }

  lemma UnlinkOne(sb: Super, blk: Image, cur: Cur, owner: Owners, cur': Cur, k: nat)
    requires Owned(sb, blk, cur, owner, {}) && CurOk(sb, cur') && k < SLOTS
    requires OneSlot(sb, blk, cur, blk, cur', cur.inum, k, 0)
    ensures Linked(sb, blk, cur', owner - {Ptr(sb, blk, cur, cur.inum, k)})
  {
    assert SeeSlot(cur.inum, k);
  }

  function Entry(sb: Super, blk: Image, addrs: seq<nat>, j: nat): nat
    requires ImageOk(sb, blk) && |addrs| == NDIRECT + 1 && j < NINDIRECT
  {
    Slot(sb, blk, addrs, NDIRECT + 1 + j)
  }

  /** The nonzero entries of the indirect block from index j on. */
  function Entries(sb: Super, blk: Image, addrs: seq<nat>, j: nat): set<nat>
    requires ImageOk(sb, blk) && |addrs| == NDIRECT + 1
  {
    set i | j <= i < NINDIRECT && Entry(sb, blk, addrs, i) != 0 :: Entry(sb, blk, addrs, i)
  }

  /** Cutting the indirect block off frees it and every block it lists, together. */
  lemma UnlinkIndirect(sb: Super, blk: Image, cur: Cur, owner: Owners)
    requires Owned(sb, blk, cur, owner, {}) && cur.addrs[NDIRECT] != 0
    ensures var gone := {cur.addrs[NDIRECT]} + Entries(sb, blk, cur.addrs, 0);
            Owned(sb, blk, cur.(addrs := cur.addrs[NDIRECT := 0]), owner - gone, gone)
  {
    var a := cur.addrs[NDIRECT];
    var cur' := cur.(addrs := cur.addrs[NDIRECT := 0]);
    var gone := {a} + Entries(sb, blk, cur.addrs, 0);
    PtrOwned(sb, blk, cur, owner, {}, cur.inum, NDIRECT);
    CutSlots(sb, blk, cur);
    forall b | b in owner
      ensures b in gone <==> owner[b].0 == cur.inum && owner[b].1 >= NDIRECT
    {
      GoneExactly(sb, blk, cur, owner, b);
    }
    assert forall b :: b in gone ==> b in owner by {
      forall j: nat | j < NINDIRECT && Entry(sb, blk, cur.addrs, j) != 0
        ensures Entry(sb, blk, cur.addrs, j) in owner
      {
        PtrOwned(sb, blk, cur, owner, {}, cur.inum, NDIRECT + 1 + j);
      }
    }
    forall b | b in owner
      ensures Data(sb, b)
    {
      OwnerPtr(sb, blk, cur, owner, {}, b);
    }
    assert Linked(sb, blk, cur', owner - gone);
  }

  lemma CutSlots(sb: Super, blk: Image, cur: Cur)
    requires ImageOk(sb, blk) && CurOk(sb, cur)
    ensures var cur' := cur.(addrs := cur.addrs[NDIRECT := 0]);
            forall x: nat, i: nat :: x < sb.ninodes && i < SLOTS ==>
              Ptr(sb, blk, cur', x, i) == if x == cur.inum && i >= NDIRECT then 0 else Ptr(sb, blk, cur, x, i)
  {}

  lemma GoneExactly(sb: Super, blk: Image, cur: Cur, owner: Owners, b: nat)
    requires Owned(sb, blk, cur, owner, {}) && cur.addrs[NDIRECT] != 0 && b in owner
    ensures b in {cur.addrs[NDIRECT]} + Entries(sb, blk, cur.addrs, 0) <==>
              owner[b].0 == cur.inum && owner[b].1 >= NDIRECT
  {
    OwnerPtr(sb, blk, cur, owner, {}, b);
    PtrOwned(sb, blk, cur, owner, {}, cur.inum, NDIRECT);
    if owner[b].0 == cur.inum && owner[b].1 > NDIRECT {
      assert Entry(sb, blk, cur.addrs, owner[b].1 - NDIRECT - 1) == b;
    }
    if j: nat :| j < NINDIRECT && Entry(sb, blk, cur.addrs, j) == b {
      PtrOwned(sb, blk, cur, owner, {}, cur.inum, NDIRECT + 1 + j);
    }
  }

  /** bfree's change: the bit cleared. */
  function Freed(sb: Super, blk: Image, b: nat): (r: Image)
    requires ImageOk(sb, blk) && b < sb.size && InUse(sb, blk, b)
    ensures |r| == |blk|
  {
    assert BBlock(sb, b) < DataStart(sb) by { assert b / BPB <= sb.size / BPB; }
    blk[BBlock(sb, b) := ClearBlockBit(blk[BBlock(sb, b)], b % BPB)]
  }

  lemma FreeLoose(sb: Super, blk: Image, cur: Cur, owner: Owners, loose: set<nat>, b: nat)
    requires Owned(sb, blk, cur, owner, loose) && b in loose
    ensures InUse(sb, blk, b) && Owned(sb, Freed(sb, blk, b), cur, owner, loose - {b})
  {
    var blk' := Freed(sb, blk, b);
    Regions(sb, blk);
    forall c | 0 <= c < sb.size
      ensures InUse(sb, blk', c) <==> c != b && InUse(sb, blk, c)
    {
      assert c / BPB == b / BPB && c % BPB == b % BPB ==> c == b;
    }
    forall x: nat, i: nat | x < sb.ninodes && i < SLOTS
      ensures Ptr(sb, blk', cur, x, i) == Ptr(sb, blk, cur, x, i)
    {
      assert Addrs(sb, blk', cur, x) == Addrs(sb, blk, cur, x);
    }
  }
}
