/**
 fs.c inside one transaction: `blk` is what bread returns for each block, and every log_write is
 recorded in `logged`.
 */
module FileSystem {
  import opened Words
  import opened Keys
  import opened Wrappers
  import opened Sets
  import opened Blocks
  import opened FsLayout
  import opened Ownership
  import opened FileBytes

  /** An in-memory inode that its caller has locked. */
  class Inode {
    const inum: nat
    const addrs: array<nat>
    var size: nat
    var words: (nat, nat) // type and major; minor and nlink

    constructor (inum: nat, addrs: seq<nat>, size: nat, words: (nat, nat))
      ensures this.inum == inum && fresh(this.addrs) && this.addrs[..] == addrs && this.size == size &&
              this.words == words
    {
      this.inum, this.size, this.words := inum, size, words;
      this.addrs := new nat[|addrs|](i requires 0 <= i < |addrs| => addrs[i]);
    }

    ghost function View(): Cur
      reads this, addrs
    {
      Cur(inum, addrs[..])
    }
  }

  /** Nothing left for balloc. */
  predicate DiskFull(sb: Super, blk: Image) {
    ImageOk(sb, blk) && forall c :: 0 <= c < sb.size ==> InUse(sb, blk, c)
  }

  /** What readi, writei and filewrite give back; Panic stands for balloc's. */
  datatype Result = Panic | Err | Count(n: nat)

  lemma BitPosition(b: nat, bi: nat)
    requires b % BPB == 0 && bi < BPB
    ensures (b + bi) / BPB == b / BPB && (b + bi) % BPB == bi
  {}

  /** Every block that differs has been passed to log_write. */
  predicate Journaled(blk: Image, blk': Image, logged: set<nat>) {
    |blk'| == |blk| && forall b :: 0 <= b < |blk| && b !in logged ==> blk'[b] == blk[b]
  }

  lemma JournaledMore(blk: Image, blk1: Image, blk2: Image, logged1: set<nat>, logged2: set<nat>)
    requires Journaled(blk, blk1, logged1) && Journaled(blk1, blk2, logged2) && logged1 <= logged2
    ensures Journaled(blk, blk2, logged2)
  {}

  /** Inode, bitmap and data blocks: nothing of the boot block, the superblock or the log. */
  predicate InFs(sb: Super, s: set<nat>) {
    forall b <- s :: sb.inodestart <= b < sb.size
  }

  /** Metadata blocks are always marked. */
  lemma ClearIsData(sb: Super, blk: Image, cur: Cur, owner: Owners, c: nat)
    requires Owned(sb, blk, cur, owner, {}) && c < sb.size && !InUse(sb, blk, c)
    ensures Data(sb, c)
  {
    Regions(sb, blk);
  }

  class Fs {
    const sb: Super
    var blk: Image
    ghost var owner: Owners
    ghost var logged: set<nat>

    ghost predicate Valid(ip: Inode)
      reads this, ip, ip.addrs
    {
      Owned(sb, blk, ip.View(), owner, {})
    }

    constructor (sb: Super, blk: Image, ghost owner: Owners)
      ensures this.sb == sb && this.blk == blk && this.owner == owner && logged == {}
    {
      this.sb, this.blk, this.owner, logged := sb, blk, owner, {};
    }

    /** log_write of a block whose buffer now holds v. */
    method LogWrite(b: nat, v: Block)
      requires b < |blk|
      modifies this`blk, this`logged
      ensures blk == old(blk)[b := v] && logged == old(logged) + {b}
    {
      blk := blk[b := v];
      logged := logged + {b};
    }

    /** balloc: the lowest free block, marked and zeroed; None stands for the panic. */
    method Balloc(ghost cur: Cur) returns (r: Option<nat>)
      requires Owned(sb, blk, cur, owner, {})
      modifies this`blk, this`logged
      ensures r.None? ==> blk == old(blk) && logged == old(logged) && DiskFull(sb, blk)
      ensures r.Some? ==>
                && Data(sb, r.value) && !InUse(sb, old(blk), r.value)
                && (forall c :: 0 <= c < r.value ==> InUse(sb, old(blk), c))
                && blk == Allocated(sb, old(blk), r.value) && logged == old(logged) + {BBlock(sb, r.value), r.value}
    {
      var b := 0;
      while b < sb.size
        invariant b % BPB == 0 && blk == old(blk) && logged == old(logged)
        invariant forall c :: 0 <= c < b && c < sb.size ==> InUse(sb, blk, c)
      {
        var bi := ScanBlock(b);
        if bi.Some? {
          ClearIsData(sb, blk, cur, owner, b + bi.value);
          Claim(b, bi.value);
          return Some(b + bi.value);
        }
        b := b + BPB;
      }
      r := None;
    }

    /** The first clear bit of one bitmap block. */
    method ScanBlock(b: nat) returns (r: Option<nat>)
      requires ImageOk(sb, blk) && b % BPB == 0 && b < sb.size
      ensures r.Some? ==> r.value < BPB && b + r.value < sb.size && !InUse(sb, blk, b + r.value)
      ensures forall c :: b <= c < sb.size && c < b + (if r.Some? then r.value else BPB) ==> InUse(sb, blk, c)
    {
      var bi := 0;
      while bi < BPB && b + bi < sb.size
        invariant 0 <= bi <= BPB && b + bi <= sb.size
        invariant forall c :: b <= c < b + bi ==> InUse(sb, blk, c)
      {
        BitPosition(b, bi);
        var bm := blk[BBlock(sb, b)];
        if !BitOf(bm[bi / 8], bi % 8) {
          return Some(bi);
        }
        bi := bi + 1;
      }
      r := None;
    }

    /** balloc marks the block whose bit it found clear, and bzero clears it. */
    method Claim(b: nat, bi: nat)
      requires ImageOk(sb, blk) && b % BPB == 0 && bi < BPB && Data(sb, b + bi) && !InUse(sb, blk, b + bi)
      modifies this`blk, this`logged
      ensures blk == Allocated(sb, old(blk), b + bi) && logged == old(logged) + {BBlock(sb, b + bi), b + bi}
    {
      BitPosition(b, bi);
      LogWrite(BBlock(sb, b), SetBlockBit(blk[BBlock(sb, b)], bi));
      LogWrite(b + bi, Zeroed());
    }

    /** bfree; false stands for the double-free panic. */
    method Bfree(b: nat) returns (ok: bool)
      requires ImageOk(sb, blk) && b < sb.size
      modifies this`blk, this`logged
      ensures ok <==> InUse(sb, old(blk), b)
      ensures ok ==> blk == Freed(sb, old(blk), b) && logged == old(logged) + {BBlock(sb, b)}
      ensures !ok ==> blk == old(blk) && logged == old(logged)
    {
      Regions(sb, blk);
      var bm := blk[BBlock(sb, b)];
      var bi := b % BPB;
      ok := BitOf(bm[bi / 8], bi % 8);
      if ok {
        LogWrite(BBlock(sb, b), ClearBlockBit(bm, bi));
      }
    }

    /** ip->addrs[k], allocated if it is 0. */
    method MapAddr(ip: Inode, k: nat) returns (r: Option<nat>)
      requires Valid(ip) && k <= NDIRECT
      modifies this, ip.addrs
      ensures r.None? ==> blk == old(blk) && DiskFull(sb, blk)
      ensures r.Some? ==> Valid(ip) && r.value != 0 && ip.addrs[..] == old(ip.addrs[..])[k := r.value]
      ensures r.Some? ==> SameFiles(sb, old(blk), old(ip.View()), blk, ip.View())
      ensures old(ip.addrs[k]) != 0 ==>
              r.Some? && blk == old(blk) && logged == old(logged) && r.value == old(ip.addrs[k])
      ensures r.Some? && old(ip.addrs[k]) == 0 ==> logged == old(logged) + {BBlock(sb, r.value), r.value}
      ensures r.Some? ==> Data(sb, r.value) && old(logged) <= logged && Journaled(old(blk), blk, logged)
    {
      ghost var cur := ip.View();
      PtrOwned(sb, blk, cur, owner, {}, ip.inum, k);
      if ip.addrs[k] != 0 {
        return Some(ip.addrs[k]);
      }
      r := Balloc(cur);
      if r.Some? {
        var b := r.value;
        AllocateOwned(sb, old(blk), cur, owner, b);
        AllocateSame(sb, old(blk), cur, owner, b);
        LinkAddr(sb, blk, cur, owner, b, k);
        AddrSlots(sb, blk, cur, b, k);
        ip.addrs[k] := b;
        assert ip.View() == cur.(addrs := cur.addrs[k := b]);
        LinkSame(sb, blk, cur, blk, ip.View(), k, b);
        SameTrans(sb, old(blk), cur, blk, cur, blk, ip.View());
        owner := owner[b := (ip.inum, k)];
      }
    }

    /** a[j] of the indirect block, allocated if it is 0. */
    method MapEntry(ip: Inode, j: nat) returns (r: Option<nat>)
      requires Valid(ip) && j < NINDIRECT && ip.addrs[NDIRECT] != 0
      modifies this
      ensures r.None? ==> blk == old(blk) && DiskFull(sb, blk)
      ensures r.Some? ==> Valid(ip) && Data(sb, r.value) && Slot(sb, blk, ip.addrs[..], NDIRECT + 1 + j) == r.value
      ensures r.Some? ==> SameFiles(sb, old(blk), ip.View(), blk, ip.View())
      ensures old(Slot(sb, blk, ip.addrs[..], NDIRECT + 1 + j)) != 0 ==>
              r.Some? && blk == old(blk) && logged == old(logged)
      ensures r.Some? && old(Slot(sb, blk, ip.addrs[..], NDIRECT + 1 + j)) == 0 ==>
                logged == old(logged) + {BBlock(sb, r.value), r.value, ip.addrs[NDIRECT]}
      ensures r.Some? ==> old(logged) <= logged && Journaled(old(blk), blk, logged)
    {
      ghost var cur := ip.View();
      var a := ip.addrs[NDIRECT];
      EntryFacts(sb, blk, cur, owner, j);
      if Get32(blk[a], j) != 0 {
        return Some(Get32(blk[a], j));
      }
      r := Balloc(cur);
      if r.Some? {
        var b := r.value;
        EntryAllocated(sb, old(blk), cur, owner, b, j);
        LogWrite(a, Put32(blk[a], j, b));
        owner := owner[b := (ip.inum, NDIRECT + 1 + j)];
      }
    }

    /** The on-disk record of the inode says what the one in memory says. */
    ghost predicate Synced(ip: Inode)
      requires ImageOk(sb, blk) && ip.inum < sb.ninodes
      reads this, ip, ip.addrs
    {
      DiskAddrs(sb, blk, ip.inum) == ip.addrs[..] && InodeWord(sb, blk, ip.inum, 2) == ip.size &&
      InodeWord(sb, blk, ip.inum, 0) == ip.words.0 && InodeWord(sb, blk, ip.inum, 1) == ip.words.1
    }

    /** Between operations: the inode is owned, written back and without holes. */
    ghost predicate Settled(ip: Inode)
      reads this, ip, ip.addrs
    {
      && Valid(ip) && Synced(ip) && NoHoles(sb, blk, ip.addrs[..], ip.size) && ip.words.0 < U32 && ip.words.1 < U32
    }

    /** iupdate: copy the inode in memory to its 64 bytes on disk. */
    method Iupdate(ip: Inode, ghost loose: set<nat>)
      requires Owned(sb, blk, ip.View(), owner, loose) && ip.size <= MAXBYTES && ip.words.0 < U32 && ip.words.1 < U32
      modifies this`blk, this`logged
      ensures Owned(sb, blk, ip.View(), owner, loose) && Synced(ip) && OthersSame(sb, old(blk), blk, ip.inum)
      ensures Content(sb, blk, ip.addrs[..], ip.size) == Content(sb, old(blk), ip.addrs[..], ip.size)
      ensures NoHoles(sb, old(blk), ip.addrs[..], ip.size) ==> NoHoles(sb, blk, ip.addrs[..], ip.size)
      ensures logged == old(logged) + {IBlock(sb, ip.inum)} && Journaled(old(blk), blk, logged)
    {
      Regions(sb, blk);
      AddrsAreWords(sb, blk, ip.View(), owner, loose);
      var v := Encode(ip, blk[IBlock(sb, ip.inum)]);
      InodeWritten(sb, blk, ip.View(), owner, loose, v, ip.size);
      LogWrite(IBlock(sb, ip.inum), v);
      RecordWord(ip.inum, 2);
    }

    /** The inode block with ip's record replaced, field by field. */
    method Encode(ip: Inode, before: Block) returns (v: Block)
      requires ip.addrs.Length == NDIRECT + 1 && ip.words.0 < U32 && ip.words.1 < U32 && ip.size < U32
      requires forall k :: 0 <= k <= NDIRECT ==> ip.addrs[k] < U32
      ensures var at := 16 * (ip.inum % IPB);
              && Get32(v, at) == ip.words.0 && Get32(v, at + 1) == ip.words.1 && Get32(v, at + 2) == ip.size
              && forall i :: 0 <= i <= NDIRECT ==> Get32(v, at + (3 + i)) == ip.addrs[i]
      ensures forall w: nat :: w < WORDS && w / 16 != ip.inum % IPB ==> Get32(v, w) == Get32(before, w)
    {
      var at := 16 * (ip.inum % IPB);
      ghost var words := [ip.words.0, ip.words.1, ip.size] + ip.addrs[..];
      assert RecordedNow(before, before, ip.inum, words, 0);
      RecordPut(before, before, ip.inum, words, 0);
      v := Put32(before, at, ip.words.0);
      RecordPut(before, v, ip.inum, words, 1);
      v := Put32(v, at + 1, ip.words.1);
      RecordPut(before, v, ip.inum, words, 2);
      v := Put32(v, at + 2, ip.size);
      for k := 0 to NDIRECT + 1
        invariant Recorded(before, v, ip.inum, words, 3 + k)
      {
        RecordPut(before, v, ip.inum, words, 3 + k);
        v := Put32(v, at + (3 + k), ip.addrs[k]);
      }
      RecordRead(before, v, ip.inum, ip.words.0, ip.words.1, ip.size, ip.addrs[..]);
    }

    /** One turn of writei's loop: bmap, memmove into the block, log_write. */
    method WriteChunk(ip: Inode, off: nat, s: seq<Byte>) returns (r: Option<nat>)
      requires Valid(ip) && off < MAXBYTES && off % BSIZE + |s| <= BSIZE
      modifies this, ip.addrs
      ensures r.None? ==> DiskFull(sb, blk)
      ensures r.Some? ==> Valid(ip) && off + |s| <= MAXBYTES
      ensures r.Some? ==> Wrote(sb, old(blk), old(ip.View()), blk, ip.View(), off, s)
      ensures r.Some? ==> FileBlock(sb, blk, ip.addrs[..], off / BSIZE) == r.value != 0 && Data(sb, r.value)
      ensures old(FileBlock(sb, blk, ip.addrs[..], off / BSIZE)) != 0 ==>
                r.Some? && ip.addrs[..] == old(ip.addrs[..]) && logged == old(logged) + {r.value}
      ensures r.Some? ==> logged <= old(logged) + {r.value, BBlock(sb, r.value)} + IndirectCost(sb, ip.addrs[..])
      ensures r.Some? ==> old(logged) <= logged && Journaled(old(blk), blk, logged)
      ensures r.Some? && old(ip.addrs[NDIRECT]) != 0 ==> ip.addrs[NDIRECT] == old(ip.addrs[NDIRECT])
    {
      r := Bmap(ip, off / BSIZE);
      if r.Some? {
        ghost var blk1, cur1, logged1 := blk, ip.View(), logged;
        ChunkWrote(sb, old(blk), old(ip.View()), blk1, cur1, owner, off, s);
        LogWrite(r.value, Splice(blk[r.value], off % BSIZE, s));
        JournaledMore(old(blk), blk1, blk, logged1, logged);
      }
    }

    /** One turn of writei's loop, with what it keeps. */
    method WriteTurn(ip: Inode, src: seq<Byte>, off: nat, tot: nat, ghost w: Writing)
      returns (ok: bool, m: nat, ghost w': Writing)
      requires Valid(ip) && tot < |src| && Turning(sb, w, blk, ip.View(), ip.size, logged, off, src, tot)
      modifies this, ip.addrs
      ensures !ok ==> DiskFull(sb, blk)
      ensures ok ==> Valid(ip) && 0 < m <= |src| - tot && w'.blk == w.blk && w'.cur == w.cur && w'.logged == w.logged
      ensures ok ==> Turning(sb, w', blk, ip.View(), ip.size, logged, off, src, tot + m)
    {
      m := Min(|src| - tot, BSIZE - (off + tot) % BSIZE);
      ChunkEnd(off, tot, |src|, m);
      ghost var blk1, cur1, logged1, size := blk, ip.View(), logged, ip.size;
      TurnFacts(sb, w, blk, cur1, size, logged, off, src, tot);
      var r := WriteChunk(ip, off + tot, src[tot..tot + m]);
      ok, w' := r.Some?, w;
      if ok {
        w' := Turned(sb, w, blk1, cur1, off + tot, r.value);
        TurnStep(sb, w, blk1, cur1, logged1, blk, ip.View(), size, logged, off, src, tot, m, r.value);
      }
    }

    /** The loop of writei. */
    method WriteLoop(ip: Inode, src: seq<Byte>, off: nat) returns (ok: bool, ghost w: Writing)
      requires Valid(ip) && off <= ip.size && off + |src| <= MAXBYTES && NoHoles(sb, blk, ip.addrs[..], ip.size)
      modifies this, ip.addrs
      ensures w.blk == old(blk) && w.cur == old(ip.View()) && w.logged == old(logged)
      ensures !ok ==> DiskFull(sb, blk)
      ensures ok ==> Valid(ip) && Turning(sb, w, blk, ip.View(), ip.size, logged, off, src, |src|)
    {
      var tot := 0;
      w := Writing(blk, ip.View(), logged, {}, {});
      TurnStart(sb, w, ip.size, off, src);
      while tot < |src|
        invariant 0 <= tot <= |src| && Valid(ip) && w.blk == old(blk) && w.cur == old(ip.View()) &&
                  w.logged == old(logged)
        invariant Turning(sb, w, blk, ip.View(), ip.size, logged, off, src, tot)
      {
        var m;
        ok, m, w := WriteTurn(ip, src, off, tot, w);
        if !ok {
          w := Writing(old(blk), old(ip.View()), old(logged), {}, {});
          return;
        }
        tot := tot + m;
      }
      ok := true;
    }

    /**
     writei on a file: the flat contents take src at off and nothing else changes, in this file or any
     other; the size grows to cover it; the inode on disk agrees with the one in memory again.
     */
    method Writei(ip: Inode, src: seq<Byte>, off: nat) returns (r: Result, ghost tx: set<nat>)
      requires Valid(ip) && Synced(ip) && NoHoles(sb, blk, ip.addrs[..], ip.size)
      requires ip.words.0 < U32 && ip.words.1 < U32 && off < U32 && |src| < U32
      modifies this, ip, ip.addrs
      ensures r.Err? <==> off > old(ip.size) || off + |src| >= U32 || off + |src| > MAXBYTES
      ensures r.Err? ==> unchanged(this) && unchanged(ip) && unchanged(ip.addrs)
      ensures r.Panic? ==> DiskFull(sb, blk)
      ensures r.Count? ==> r.n == |src| && Valid(ip) && Synced(ip) && NoHoles(sb, blk, ip.addrs[..], ip.size)
      ensures r.Count? ==> ip.size == Max(old(ip.size), off + |src|) && ip.words == old(ip.words)
      ensures r.Count? ==> Content(sb, blk, ip.addrs[..], ip.size) ==
                             Overlay(Content(sb, old(blk), old(ip.addrs[..]), old(ip.size)), off, src)
      ensures r.Count? ==> OthersSame(sb, old(blk), blk, ip.inum)
      ensures r.Count? ==> old(logged) <= logged <= old(logged) + tx && |tx| <= WriteCost(sb, off, |src|)
      ensures r.Count? ==> InFs(sb, tx) && Journaled(old(blk), blk, logged)
    {
      if off > ip.size || off + |src| >= U32 || off + |src| > MAXBYTES {
        return Err, {};
      }
      var ok;
      ghost var w;
      ok, w := WriteLoop(ip, src, off);
      if !ok {
        return Panic, {};
      }
      assert See(INSIDE);
      ghost var blk1, logged1 := blk, logged;
      AddrsAreWords(sb, blk, ip.View(), owner, {});
      assert ip.addrs[NDIRECT] < sb.size;
      WroteOverlay(sb, old(blk), old(ip.View()), blk1, ip.View(), off, src, ip.size);
      if |src| > 0 && off + |src| > ip.size {
        ip.size := off + |src|;
        Iupdate(ip, {});
        OthersTrans(sb, old(blk), blk1, blk, ip.inum);
        JournaledMore(old(blk), blk1, blk, logged1, logged);
      } else {
        StillSynced(sb, old(blk), blk, ip.inum);
      }
      tx := w.data + w.bits + IndirectCost(sb, ip.addrs[..]) + {IBlock(sb, ip.inum)};
      CostBound(sb, off, |src|, w.data, w.bits, ip.addrs[..], IBlock(sb, ip.inum));
      CostInFs(sb, blk, ip.View(), owner, w.data, w.bits);
      r := Count(|src|);
    }

    /** One turn of readi's loop: bmap finds the block mapped, and memmove copies from it. */
    method ReadChunk(ip: Inode, at: nat, m: nat) returns (s: seq<Byte>)
      requires Valid(ip) && NoHoles(sb, blk, ip.addrs[..], ip.size)
      requires at < ip.size && at + m <= ip.size && at % BSIZE + m <= BSIZE
      modifies this, ip.addrs
      ensures blk == old(blk) && logged == old(logged) && ip.addrs[..] == old(ip.addrs[..]) && Valid(ip)
      ensures s == Content(sb, blk, ip.addrs[..], ip.size)[at..at + m]
    {
      MappedBelow(sb, blk, ip.View(), ip.size, at, 0);
      var b := Bmap(ip, at / BSIZE);
      ReadSlice(sb, blk, ip.addrs[..], ip.size, at, m, b.value);
      s := blk[b.value][at % BSIZE..at % BSIZE + m];
    }

    /** The bytes from off + tot to the end of their block, or to the n-th byte. */
    method ReadTurn(ip: Inode, off: nat, tot: nat, n: nat) returns (s: seq<Byte>)
      requires Valid(ip) && NoHoles(sb, blk, ip.addrs[..], ip.size) && tot < n && off + n <= ip.size
      modifies this, ip.addrs
      ensures blk == old(blk) && logged == old(logged) && ip.addrs[..] == old(ip.addrs[..]) && Valid(ip)
      ensures 0 < |s| <= n - tot && s == Content(sb, blk, ip.addrs[..], ip.size)[off + tot..off + tot + |s|]
    {
      var m := Min(n - tot, BSIZE - (off + tot) % BSIZE);
      ChunkEnd(off, tot, n, m);
      s := ReadChunk(ip, off + tot, m);
    }

    /** readi on a file: exactly the bytes of the flat contents, clipped to the size; nothing is allocated. */
    method Readi(ip: Inode, off: nat, want: nat) returns (r: Result, dst: seq<Byte>)
      requires Valid(ip) && NoHoles(sb, blk, ip.addrs[..], ip.size) && off < U32 && want < U32
      modifies this, ip.addrs
      ensures blk == old(blk) && logged == old(logged) && ip.addrs[..] == old(ip.addrs[..]) && Valid(ip)
      ensures r.Err? <==> off > ip.size || off + want >= U32
      ensures !r.Err? ==>
                r == Count(|dst|) && dst == Content(sb, blk, ip.addrs[..], ip.size)[off..Min(off + want, ip.size)]
    {
      dst := [];
      if off > ip.size || off + want >= U32 {
        return Err, [];
      }
      var n := Min(off + want, ip.size) - off;
      dst := ReadAll(ip, off, n);
      r := Count(n);
    }

    /** The loop of readi. */
    method ReadAll(ip: Inode, off: nat, n: nat) returns (dst: seq<Byte>)
      requires Valid(ip) && NoHoles(sb, blk, ip.addrs[..], ip.size) && off + n <= ip.size
      modifies this, ip.addrs
      ensures blk == old(blk) && logged == old(logged) && ip.addrs[..] == old(ip.addrs[..]) && Valid(ip)
      ensures dst == Content(sb, blk, ip.addrs[..], ip.size)[off..off + n]
    {
      dst := [];
      var tot := 0;
      ghost var c := Content(sb, blk, ip.addrs[..], ip.size);
      while tot < n
        invariant 0 <= tot <= n && blk == old(blk) && logged == old(logged) && ip.addrs[..] == old(ip.addrs[..])
        invariant Valid(ip) && c == Content(sb, blk, ip.addrs[..], ip.size) && dst == c[off..off + tot]
      {
        var s := ReadTurn(ip, off, tot, n);
        SlicesJoin(c, off, off + tot, off + tot + |s|);
        dst := dst + s;
        tot := tot + |s|;
      }
    }

    /** bfree of a block that nothing points to any more. */
    method FreeOne(ghost cur: Cur, ghost loose: set<nat>, b: nat) returns (ok: bool)
      requires Owned(sb, blk, cur, owner, loose) && b in loose
      modifies this`blk, this`logged
      ensures ok && Owned(sb, blk, cur, owner, loose - {b}) && OnlyBitmap(sb, old(blk), blk)
      ensures Freeing(sb, old(blk), old(logged), blk, logged, {b})
    {
      FreeLoose(sb, blk, cur, owner, loose, b);
      Regions(sb, blk);
      ok := Bfree(b);
    }

    /** itrunc's first loop: the direct blocks. */
    method TruncDirect(ip: Inode) returns (ok: bool)
      requires Valid(ip)
      modifies this, ip.addrs
      ensures ok && Valid(ip) && OnlyBitmap(sb, old(blk), blk)
      ensures (forall k :: 0 <= k < NDIRECT ==> ip.addrs[k] == 0) && ip.addrs[NDIRECT] == old(ip.addrs[NDIRECT])
      ensures owner == Without(old(owner), ip.inum, NDIRECT)
      ensures Freeing(sb, old(blk), old(logged), blk, logged, old(owner).Keys - owner.Keys)
    {
      ok := true;
      assert owner == Without(owner, ip.inum, 0);
      for i := 0 to NDIRECT
        invariant ok && Valid(ip) && OnlyBitmap(sb, old(blk), blk)
        invariant Freeing(sb, old(blk), old(logged), blk, logged, old(owner).Keys - owner.Keys)
        invariant forall k :: 0 <= k <= NDIRECT ==> ip.addrs[k] == if k < i then 0 else old(ip.addrs[k])
        invariant owner == Without(old(owner), ip.inum, i)
      {
        ghost var blk1, logged1, owner1 := blk, logged, owner;
        ok := TruncSlot(ip, i, old(owner));
        FreeingMore(sb, old(blk), old(logged), blk1, logged1, blk, logged, old(owner).Keys, owner1.Keys, owner.Keys);
      }
    }

    /** One turn of it. */
    method TruncSlot(ip: Inode, i: nat, ghost owner0: Owners) returns (ok: bool)
      requires Valid(ip) && i < NDIRECT && owner == Without(owner0, ip.inum, i)
      modifies this, ip.addrs
      ensures ok && Valid(ip) && OnlyBitmap(sb, old(blk), blk)
      ensures ip.addrs[..] == old(ip.addrs[..])[i := 0] && owner == Without(owner0, ip.inum, i + 1)
      ensures owner.Keys <= old(owner).Keys
      ensures Freeing(sb, old(blk), old(logged), blk, logged, old(owner).Keys - owner.Keys)
    {
      ok := true;
      ghost var cur := ip.View();
      WithoutNext(sb, blk, cur, owner0, owner, i);
      if ip.addrs[i] != 0 {
        var b := ip.addrs[i];
        UnlinkAddr(sb, blk, cur, owner, i);
        PtrOwned(sb, blk, cur, owner, {}, ip.inum, i);
        owner := owner - {b};
        ip.addrs[i] := 0;
        assert ip.View() == cur.(addrs := cur.addrs[i := 0]);
        ok := FreeOne(ip.View(), {b}, b);
        assert {b} - {b} == {} && old(owner).Keys - owner.Keys == {b};
      }
    }

    method FreeEntry(ghost cur: Cur, ghost blk0: Image, ghost cur0: Cur, ghost owner0: Owners, a: nat, j: nat)
                     returns (ok: bool)
      requires Owned(sb, blk0, cur0, owner0, {}) && cur0.addrs[NDIRECT] == a != 0 && j < NINDIRECT
      requires OnlyBitmap(sb, blk0, blk) && Data(sb, a)
      requires Owned(sb, blk, cur, owner, {a} + Entries(sb, blk0, cur0.addrs, j))
      modifies this`blk, this`logged
      ensures ok && OnlyBitmap(sb, blk0, blk) && Owned(sb, blk, cur, owner, {a} + Entries(sb, blk0, cur0.addrs, j + 1))
      ensures Entries(sb, blk0, cur0.addrs, j + 1) <= Entries(sb, blk0, cur0.addrs, j)
      ensures Freeing(sb, old(blk), old(logged), blk, logged,
                      Entries(sb, blk0, cur0.addrs, j) - Entries(sb, blk0, cur0.addrs, j + 1))
    {
      ok := true;
      EntriesNext(sb, blk0, cur0, owner0, j);
      var e := Get32(blk[a], j);
      if e != 0 {
        ok := FreeOne(cur, {a} + Entries(sb, blk0, cur0.addrs, j), e);
      }
    }

    /** itrunc's second part: the blocks the indirect block lists, then the indirect block. */
    method TruncIndirect(ip: Inode) returns (ok: bool)
      requires Valid(ip) && ip.addrs[NDIRECT] != 0
      modifies this, ip.addrs
      ensures ok && Valid(ip) && OnlyBitmap(sb, old(blk), blk) && ip.addrs[..] == old(ip.addrs[..])[NDIRECT := 0]
      ensures owner == old(owner) - ({old(ip.addrs[NDIRECT])} + old(Entries(sb, blk, ip.addrs[..], 0)))
      ensures Freeing(sb, old(blk), old(logged), blk, logged, old(owner).Keys - owner.Keys)
    {
      ghost var addrs := ip.addrs[..];
      ghost var cur := ip.View().(addrs := addrs[NDIRECT := 0]);
      var a := ip.addrs[NDIRECT];
      UnlinkIndirect(sb, blk, ip.View(), owner);
      ghost var listed := Entries(sb, blk, addrs, 0);
      IndirectGone(sb, blk, ip.View(), owner);
      owner := owner - ({a} + listed);
      ok := FreeListed(cur, ip.View(), old(owner), a);
      ghost var blk1, logged1 := blk, logged;
      ok := FreeOne(cur, {a}, a);
      assert {a} - {a} == {};
      FreeingJoin(sb, old(blk), old(logged), blk1, logged1, blk, logged, listed, {a});
      assert old(owner).Keys - owner.Keys == listed + {a};
      ip.addrs[NDIRECT] := 0;
      assert ip.View() == cur;
    }

    /** The loop over the indirect block. */
    method FreeListed(ghost cur: Cur, ghost cur0: Cur, ghost owner0: Owners, a: nat) returns (ok: bool)
      requires Owned(sb, blk, cur0, owner0, {}) && cur0.addrs[NDIRECT] == a != 0
      requires Owned(sb, blk, cur, owner, {a} + Entries(sb, blk, cur0.addrs, 0))
      modifies this`blk, this`logged
      ensures ok && OnlyBitmap(sb, old(blk), blk) && Owned(sb, blk, cur, owner, {a})
      ensures Freeing(sb, old(blk), old(logged), blk, logged, Entries(sb, old(blk), cur0.addrs, 0))
    {
      ghost var addrs, listed := cur0.addrs, Entries(sb, blk, cur0.addrs, 0);
      ok := true;
      for j := 0 to NINDIRECT
        invariant ok && OnlyBitmap(sb, old(blk), blk) && Data(sb, a)
        invariant Owned(sb, blk, cur, owner, {a} + Entries(sb, old(blk), addrs, j))
        invariant Entries(sb, old(blk), addrs, j) <= listed
        invariant Freeing(sb, old(blk), old(logged), blk, logged, listed - Entries(sb, old(blk), addrs, j))
      {
        ghost var blk1, logged1 := blk, logged;
        ok := FreeEntry(cur, old(blk), cur0, owner0, a, j);
        FreeingMore(sb, old(blk), old(logged), blk1, logged1, blk, logged, listed,
                    Entries(sb, old(blk), addrs, j), Entries(sb, old(blk), addrs, j + 1));
      }
      assert {a} + Entries(sb, old(blk), addrs, NINDIRECT) == {a};
      assert listed - Entries(sb, old(blk), addrs, NINDIRECT) == listed;
    }

    /**
     itrunc: every block of the inode is freed, once each and without the double-free panic, and no other
     block is; the inode is left empty, in memory and on disk; every other file reads as before.
     */
    method Itrunc(ip: Inode) returns (ok: bool)
      requires Valid(ip) && ip.words.0 < U32 && ip.words.1 < U32
      modifies this, ip, ip.addrs
      ensures ok && Valid(ip) && Synced(ip) && ip.size == 0 && ip.words == old(ip.words)
      ensures forall k :: 0 <= k <= NDIRECT ==> ip.addrs[k] == 0
      ensures owner == Without(old(owner), ip.inum, SLOTS)
      ensures OthersSame(sb, old(blk), blk, ip.inum) && Journaled(old(blk), blk, logged)
      ensures logged == old(logged) + TruncLogs(sb, old(owner), ip.inum)
    {
      ok := TruncBlocks(ip);
      BitmapOnlyOthers(sb, old(blk), blk, ip.inum);
      ghost var blk1, logged1 := blk, logged;
      ip.size := 0;
      Iupdate(ip, {});
      OthersTrans(sb, old(blk), blk1, blk, ip.inum);
      JournaledMore(old(blk), blk1, blk, logged1, logged);
    }

    /** Both loops. */
    method TruncBlocks(ip: Inode) returns (ok: bool)
      requires Valid(ip)
      modifies this, ip.addrs
      ensures ok && Valid(ip) && OnlyBitmap(sb, old(blk), blk) && forall k :: 0 <= k <= NDIRECT ==> ip.addrs[k] == 0
      ensures owner == Without(old(owner), ip.inum, SLOTS)
      ensures Freeing(sb, old(blk), old(logged), blk, logged, BlocksOf(old(owner), ip.inum))
    {
      ok := TruncDirect(ip);
      ghost var (blk1, cur1, owner1, logged1) := (blk, ip.View(), owner, logged);
      if ip.addrs[NDIRECT] != 0 {
        ok := TruncIndirect(ip);
      }
      FreeingMore(sb, old(blk), old(logged), blk1, logged1, blk, logged, old(owner).Keys, owner1.Keys, owner.Keys);
      WithoutAll(sb, blk1, cur1, old(owner), owner1, owner);
      BlocksGone(sb, old(blk), old(ip.View()), old(owner), owner);
    }

    /** The second half of bmap: through the indirect block. */
    method BmapIndirect(ip: Inode, j: nat) returns (r: Option<nat>)
      requires Valid(ip) && j < NINDIRECT
      modifies this, ip.addrs
      ensures r.None? ==> DiskFull(sb, blk)
      ensures r.Some? ==> Valid(ip) && Data(sb, r.value) && Slot(sb, blk, ip.addrs[..], NDIRECT + 1 + j) == r.value
      ensures r.Some? ==> SameFiles(sb, old(blk), old(ip.View()), blk, ip.View())
      ensures old(Slot(sb, blk, ip.addrs[..], NDIRECT + 1 + j)) != 0 ==>
                r.Some? && blk == old(blk) && logged == old(logged) && ip.addrs[..] == old(ip.addrs[..])
      ensures r.Some? ==> logged <= old(logged) + {r.value, BBlock(sb, r.value)} + IndirectCost(sb, ip.addrs[..])
      ensures r.Some? ==> old(logged) <= logged && Journaled(old(blk), blk, logged)
      ensures r.Some? && old(ip.addrs[NDIRECT]) != 0 ==> ip.addrs[NDIRECT] == old(ip.addrs[NDIRECT])
    {
      r := MapAddr(ip, NDIRECT);
      if r.Some? {
        ghost var (blk1, cur1, logged1) := (blk, ip.View(), logged);
        assert logged1 <= old(logged) + IndirectCost(sb, ip.addrs[..]);
        assert old(ip.addrs[NDIRECT]) != 0 ==> ip.addrs[..] == old(ip.addrs[..]);
        r := MapEntry(ip, j);
        if r.Some? {
          SameTrans(sb, old(blk), old(ip.View()), blk1, cur1, blk, ip.View());
          JournaledMore(old(blk), blk1, blk, logged1, logged);
          assert logged <= logged1 + {r.value, BBlock(sb, r.value)} + IndirectCost(sb, ip.addrs[..]);
        }
      }
    }

    /** bmap: the block number of the bn'th block, allocating it (and the indirect block) if there is none. */
    method Bmap(ip: Inode, bn: nat) returns (r: Option<nat>)
      requires Valid(ip)
      modifies this, ip.addrs
      ensures r.None? ==> bn >= MAXFILE || DiskFull(sb, blk)
      ensures r.Some? ==> bn < MAXFILE && Valid(ip) && Data(sb, r.value)
      ensures r.Some? ==> FileBlock(sb, blk, ip.addrs[..], bn) == r.value
      ensures r.Some? ==> SameFiles(sb, old(blk), old(ip.View()), blk, ip.View())
      ensures bn < MAXFILE && old(FileBlock(sb, blk, ip.addrs[..], bn)) != 0 ==>
                r.Some? && blk == old(blk) && logged == old(logged) && ip.addrs[..] == old(ip.addrs[..])
      ensures r.Some? ==> logged <= old(logged) + {r.value, BBlock(sb, r.value)} + IndirectCost(sb, ip.addrs[..])
      ensures r.Some? ==> old(logged) <= logged && Journaled(old(blk), blk, logged)
      ensures r.Some? && old(ip.addrs[NDIRECT]) != 0 ==> ip.addrs[NDIRECT] == old(ip.addrs[NDIRECT])
    {
      if bn < NDIRECT {
        r := MapAddr(ip, bn);
      } else if bn - NDIRECT < NINDIRECT {
        r := BmapIndirect(ip, bn - NDIRECT);
      } else {
        r := None;
      }
    }
  }

  lemma AddrsAreWords(sb: Super, blk: Image, cur: Cur, owner: Owners, loose: set<nat>)
    requires Owned(sb, blk, cur, owner, loose)
    ensures forall k :: 0 <= k <= NDIRECT ==> cur.addrs[k] < sb.size < U32
  {
    forall k | 0 <= k <= NDIRECT
      ensures cur.addrs[k] < sb.size
    {
      PtrOwned(sb, blk, cur, owner, loose, cur.inum, k);
    }
  }

  /** The first k words of inode inum's record are in v, and the other records are as before. */
  predicate Recorded(before: Block, v: Block, inum: nat, words: seq<nat>, k: nat) {
    |words| == 16 && k <= 16 && forall q {:trigger See(q)} :: q == INSIDE ==> RecordedNow(before, v, inum, words, k)
  }

  predicate RecordedNow(before: Block, v: Block, inum: nat, words: seq<nat>, k: nat)
    requires k <= 16 == |words|
  {
    && (forall i: nat :: i < k ==> Get32(v, 16 * (inum % IPB) + i) == words[i])
    && forall w: nat :: w < WORDS && w / 16 != inum % IPB ==> Get32(v, w) == Get32(before, w)
  }

  lemma RecordPut(before: Block, v: Block, inum: nat, words: seq<nat>, k: nat)
    requires Recorded(before, v, inum, words, k) && k < 16 && words[k] < U32
    ensures 16 * (inum % IPB) + k < WORDS
    ensures Recorded(before, Put32(v, 16 * (inum % IPB) + k, words[k]), inum, words, k + 1)
  {
    assert See(INSIDE);
    RecordWord(inum, k);
  }

  lemma RecordRead(before: Block, v: Block, inum: nat, w0: nat, w1: nat, size: nat, addrs: seq<nat>)
    requires |addrs| == NDIRECT + 1 && Recorded(before, v, inum, [w0, w1, size] + addrs, 16)
    ensures var at := 16 * (inum % IPB);
            && Get32(v, at) == w0 && Get32(v, at + 1) == w1 && Get32(v, at + 2) == size
            && forall i :: 0 <= i <= NDIRECT ==> Get32(v, at + (3 + i)) == addrs[i]
    ensures forall w: nat :: w < WORDS && w / 16 != inum % IPB ==> Get32(v, w) == Get32(before, w)
  {
    assert See(INSIDE);
    var words, at := [w0, w1, size] + addrs, 16 * (inum % IPB);
    assert Get32(v, at + 0) == words[0] && Get32(v, at + 1) == words[1] && Get32(v, at + 2) == words[2];
    forall i | 0 <= i <= NDIRECT
      ensures Get32(v, at + (3 + i)) == addrs[i]
    {
      assert Get32(v, at + (3 + i)) == words[3 + i];
    }
  }

  lemma RecordWord(inum: nat, k: nat)
    requires k < 16
    ensures 16 * (inum % IPB) + k < WORDS && (16 * (inum % IPB) + k) / 16 == inum % IPB
  {}

  /** Rewriting one inode record leaves every other file, and that inode's pointers in memory, alone. */
  lemma InodeWritten(sb: Super, blk: Image, cur: Cur, owner: Owners, loose: set<nat>, v: Block, size: nat)
    requires Owned(sb, blk, cur, owner, loose) && size <= MAXBYTES
    requires forall w: nat :: w < WORDS && w / 16 != cur.inum % IPB ==>
             Get32(v, w) == Get32(blk[IBlock(sb, cur.inum)], w)
    ensures sb.inodestart <= IBlock(sb, cur.inum) < sb.bmapstart
    ensures var blk' := blk[IBlock(sb, cur.inum) := v];
            && Owned(sb, blk', cur, owner, loose) && OthersSame(sb, blk, blk', cur.inum)
            && Content(sb, blk', cur.addrs, size) == Content(sb, blk, cur.addrs, size)
            && (NoHoles(sb, blk, cur.addrs, size) ==> NoHoles(sb, blk', cur.addrs, size))
  {
    WriteInode(sb, blk, cur, owner, loose, v);
    var blk' := blk[IBlock(sb, cur.inum) := v];
    DataKept(sb, blk, blk', cur.addrs, size);
    forall x: nat | x < sb.ninodes && x != cur.inum
      ensures DiskAddrs(sb, blk', x) == DiskAddrs(sb, blk, x)
      ensures forall k: nat :: k < 16 ==> InodeWord(sb, blk', x, k) == InodeWord(sb, blk, x, k)
      ensures forall i: nat :: i < SLOTS ==> DiskSlot(sb, blk', x, i) == DiskSlot(sb, blk, x, i)
      ensures forall k: nat :: k < MAXBYTES ==>
                FileByte(sb, blk', DiskAddrs(sb, blk', x), k) == FileByte(sb, blk, DiskAddrs(sb, blk, x), k)
    {
      if IBlock(sb, x) == IBlock(sb, cur.inum) {
        forall k: nat | k < 16
          ensures InodeWord(sb, blk', x, k) == InodeWord(sb, blk, x, k)
        {
          RecordWord(x, k);
        }
      }
      DataKept(sb, blk, blk', DiskAddrs(sb, blk, x), 0);
    }
  }

  lemma DataKept(sb: Super, blk: Image, blk': Image, addrs: seq<nat>, size: nat)
    requires ImageOk(sb, blk) && |blk'| == |blk| && |addrs| == NDIRECT + 1 && size <= MAXBYTES
    requires forall b :: 0 <= b < |blk| && Data(sb, b) ==> blk'[b] == blk[b]
    ensures forall k: nat :: k < MAXBYTES ==> FileByte(sb, blk', addrs, k) == FileByte(sb, blk, addrs, k)
    ensures Content(sb, blk', addrs, size) == Content(sb, blk, addrs, size)
    ensures NoHoles(sb, blk, addrs, size) ==> NoHoles(sb, blk', addrs, size)
    ensures forall i: nat :: i < SLOTS ==> Slot(sb, blk', addrs, i) == Slot(sb, blk, addrs, i)
  {
    forall bn: nat | bn < MAXFILE
      ensures FileBlock(sb, blk', addrs, bn) == FileBlock(sb, blk, addrs, bn)
    {}
    forall k: nat | k < MAXBYTES
      ensures FileByte(sb, blk', addrs, k) == FileByte(sb, blk, addrs, k)
    {
      assert FileBlock(sb, blk', addrs, k / BSIZE) == FileBlock(sb, blk, addrs, k / BSIZE);
    }
  }

  // ---------- one turn of writei's loop ----------

  /** tot bytes of src are in place at off, no block below the end is missing, and no pointer moved short of it. */
  ghost predicate Progress(sb: Super, blk0: Image, cur0: Cur, blk: Image, cur: Cur, size: nat, off: nat,
                           src: seq<Byte>, tot: nat) {
    tot <= |src| && off <= size && Wrote(sb, blk0, cur0, blk, cur, off, src[..tot]) &&
    NoHoles(sb, blk, cur.addrs, Max(size, off + tot)) && (off + tot <= size ==> cur.addrs == cur0.addrs)
  }

  lemma SlicesJoin(c: seq<Byte>, i: nat, j: nat, k: nat)
    requires i <= j <= k <= |c|
    ensures c[i..j] + c[j..k] == c[i..k]
  {}

  lemma ChunkEnd(off: nat, tot: nat, n: nat, m: nat)
    requires tot < n && m == Min(n - tot, BSIZE - (off + tot) % BSIZE)
    ensures 0 < m && tot + m <= n && (off + tot) % BSIZE + m <= BSIZE
    ensures tot + m < n ==> (off + (tot + m)) % BSIZE == 0
  {}

  lemma MappedBelow(sb: Super, blk: Image, cur: Cur, size: nat, off: nat, tot: nat)
    requires ImageOk(sb, blk) && CurOk(sb, cur) && NoHoles(sb, blk, cur.addrs, Max(size, off + tot)) && off <= size
    requires off + tot < MAXBYTES
    ensures off + tot < size || (tot == 0 && off % BSIZE != 0) ==>
            FileBlock(sb, blk, cur.addrs, (off + tot) / BSIZE) != 0
  {
    var bn := (off + tot) / BSIZE;
    assert bn * BSIZE == off + tot - (off + tot) % BSIZE;
  }

  lemma ProgressWrote(sb: Super, blk0: Image, cur0: Cur, blk1: Image, cur1: Cur, blk: Image, cur: Cur, size: nat,
                      off: nat, src: seq<Byte>, tot: nat, m: nat)
    requires Progress(sb, blk0, cur0, blk1, cur1, size, off, src, tot) && tot + m <= |src| && off + |src| <= MAXBYTES
    requires Wrote(sb, blk1, cur1, blk, cur, off + tot, src[tot..tot + m])
    ensures Wrote(sb, blk0, cur0, blk, cur, off, src[..tot + m])
  {
    WroteMore(sb, blk0, cur0, blk1, cur1, blk, cur, off, src[..tot], src[tot..tot + m]);
    SlicesJoin(src, 0, tot, tot + m);
  }

  lemma ProgressStep(sb: Super, blk0: Image, cur0: Cur, blk1: Image, cur1: Cur, blk: Image, cur: Cur, size: nat,
                     off: nat, src: seq<Byte>, tot: nat, m: nat)
    requires Progress(sb, blk0, cur0, blk1, cur1, size, off, src, tot) && 0 < m && tot + m <= |src|
    requires (off + tot) % BSIZE + m <= BSIZE && off + |src| <= MAXBYTES
    requires Wrote(sb, blk1, cur1, blk, cur, off + tot, src[tot..tot + m])
    requires FileBlock(sb, blk, cur.addrs, (off + tot) / BSIZE) != 0
    requires FileBlock(sb, blk1, cur1.addrs, (off + tot) / BSIZE) != 0 ==> cur.addrs == cur1.addrs
    ensures Progress(sb, blk0, cur0, blk, cur, size, off, src, tot + m)
  {
    ProgressWrote(sb, blk0, cur0, blk1, cur1, blk, cur, size, off, src, tot, m);
    ChunkNoHoles(sb, blk1, cur1, blk, cur, off + tot, src[tot..tot + m], Max(size, off + tot));
    MappedBelow(sb, blk1, cur1, size, off, tot);
  }

  // ---------- what a write adds to its transaction ----------

  /** File blocks touched by n bytes at offset off. */
  function Touched(off: nat, n: nat): nat {
    if n == 0 then 0 else (off + n - 1) / BSIZE - off / BSIZE + 1
  }

  /** One data block per file block touched; a bitmap block for each, but not for a first block begun earlier. */
  ghost predicate CostOk(sb: Super, off: nat, n: nat, data: set<nat>, bits: set<nat>) {
    |data| <= Touched(off, n) && |bits| <= Touched(off, n) - (if off % BSIZE != 0 && n > 0 then 1 else 0) &&
    (sb.size <= BPB ==> bits <= {sb.bmapstart})
  }

  lemma CostStep(sb: Super, off: nat, n: nat, m: nat, data: set<nat>, bits: set<nat>, b: nat, mapped: bool)
    requires CostOk(sb, off, n, data, bits) && 0 < m <= BSIZE - (off + n) % BSIZE && b < sb.size
    requires n > 0 ==> (off + n) % BSIZE == 0
    requires n == 0 && off % BSIZE != 0 ==> mapped
    ensures CostOk(sb, off, n + m, data + {b}, if mapped then bits else bits + {BBlock(sb, b)})
  {
    assert Touched(off, n + m) == Touched(off, n) + 1 by {
      assert (off + n + m - 1) / BSIZE == (off + n) / BSIZE;
    }
    assert sb.size <= BPB ==> BBlock(sb, b) == sb.bmapstart;
  }

  /** Where a write started, and the data blocks and bitmap blocks it has logged since. */
  datatype Writing = Writing(blk: Image, cur: Cur, logged: set<nat>, data: set<nat>, bits: set<nat>)

  /** What the loop of writei keeps. */
  ghost predicate Turning(sb: Super, w: Writing, blk: Image, cur: Cur, size: nat, logged: set<nat>, off: nat,
                          src: seq<Byte>, tot: nat) {
    forall k {:trigger See(k)} :: k == INSIDE ==> TurnsTo(sb, w, blk, cur, size, logged, off, src, tot)
  }

  ghost predicate TurnsTo(sb: Super, w: Writing, blk: Image, cur: Cur, size: nat, logged: set<nat>, off: nat,
                          src: seq<Byte>, tot: nat) {
    Progress(sb, w.blk, w.cur, blk, cur, size, off, src, tot) && off + |src| <= MAXBYTES &&
    logged <= w.logged + w.data + w.bits + IndirectCost(sb, cur.addrs) && w.logged <= logged &&
    Journaled(w.blk, blk, logged) && InFs(sb, w.data + w.bits) && CostOk(sb, off, tot, w.data, w.bits) &&
      (0 < tot < |src| ==> (off + tot) % BSIZE == 0)
  }

  lemma TurnStart(sb: Super, w: Writing, size: nat, off: nat, src: seq<Byte>)
    requires ImageOk(sb, w.blk) && CurOk(sb, w.cur) && NoHoles(sb, w.blk, w.cur.addrs, size)
    requires off <= size && off + |src| <= MAXBYTES && w.data == w.bits == {}
    ensures Turning(sb, w, w.blk, w.cur, size, w.logged, off, src, 0)
  {
    SameWrote(sb, w.blk, w.cur, w.blk, w.cur, off);
    assert src[..0] == [];
    assert TurnsTo(sb, w, w.blk, w.cur, size, w.logged, off, src, 0);
  }

  /** Where the next turn writes. */
  lemma TurnFacts(sb: Super, w: Writing, blk: Image, cur: Cur, size: nat, logged: set<nat>, off: nat, src: seq<Byte>,
                  tot: nat)
    requires Turning(sb, w, blk, cur, size, logged, off, src, tot) && tot < |src|
    ensures off + |src| <= MAXBYTES
  {
    assert See(INSIDE);
  }

  ghost function Turned(sb: Super, w: Writing, blk: Image, cur: Cur, at: nat, b: nat): Writing
    requires ImageOk(sb, blk) && CurOk(sb, cur) && at < MAXBYTES
  {
    w.(data := w.data + {b},
       bits := if FileBlock(sb, blk, cur.addrs, at / BSIZE) != 0 then w.bits else w.bits + {BBlock(sb, b)})
  }

  lemma TurnStep(sb: Super, w: Writing, blk1: Image, cur1: Cur, logged1: set<nat>, blk: Image, cur: Cur, size: nat,
                 logged: set<nat>, off: nat, src: seq<Byte>, tot: nat, m: nat, b: nat)
    requires tot < |src| && Turning(sb, w, blk1, cur1, size, logged1, off, src, tot)
    requires m == Min(|src| - tot, BSIZE - (off + tot) % BSIZE) && tot + m <= |src|
    requires Wrote(sb, blk1, cur1, blk, cur, off + tot, src[tot..tot + m])
    requires FileBlock(sb, blk, cur.addrs, (off + tot) / BSIZE) == b != 0 && Data(sb, b)
    requires off + |src| <= MAXBYTES
    requires var mapped := FileBlock(sb, blk1, cur1.addrs, (off + tot) / BSIZE) != 0;
             && (mapped ==> cur.addrs == cur1.addrs && logged == logged1 + {b})
             && logged <= logged1 + {b, BBlock(sb, b)} + IndirectCost(sb, cur.addrs)
    requires cur1.addrs[NDIRECT] != 0 ==> cur.addrs[NDIRECT] == cur1.addrs[NDIRECT]
    requires logged1 <= logged && Journaled(blk1, blk, logged)
    ensures Turning(sb, Turned(sb, w, blk1, cur1, off + tot, b), blk, cur, size, logged, off, src, tot + m)
  {
    assert See(INSIDE);
    ChunkEnd(off, tot, |src|, m);
    MappedBelow(sb, blk1, cur1, size, off, tot);
    ProgressStep(sb, w.blk, w.cur, blk1, cur1, blk, cur, size, off, src, tot, m);
    CostStep(sb, off, tot, m, w.data, w.bits, b, FileBlock(sb, blk1, cur1.addrs, (off + tot) / BSIZE) != 0);
    JournaledMore(w.blk, blk1, blk, logged1, logged);
    Regions(sb, blk);
    assert TurnsTo(sb, Turned(sb, w, blk1, cur1, off + tot, b), blk, cur, size, logged, off, src, tot + m);
  }

  // ---------- writei as a whole ----------

  lemma WroteOverlay(sb: Super, blk: Image, cur: Cur, blk': Image, cur': Cur, off: nat, s: seq<Byte>, size: nat)
    requires Wrote(sb, blk, cur, blk', cur', off, s) && off <= size <= MAXBYTES
    ensures Content(sb, blk', cur'.addrs, Max(size, off + |s|)) == Overlay(Content(sb, blk, cur.addrs, size), off, s)
  {
    var (c, d) := (Content(sb, blk', cur'.addrs, Max(size, off + |s|)),
      Overlay(Content(sb, blk, cur.addrs, size), off, s));
    assert |c| == |d|;
    forall k | 0 <= k < |c|
      ensures c[k] == d[k]
    {
      assert c[k] == FileByte(sb, blk', cur'.addrs, k);
    }
  }

  lemma OthersTrans(sb: Super, blk: Image, blk1: Image, blk2: Image, inum: nat)
    requires OthersSame(sb, blk, blk1, inum) && OthersSame(sb, blk1, blk2, inum)
    ensures OthersSame(sb, blk, blk2, inum)
  {}

  lemma StillSynced(sb: Super, blk: Image, blk': Image, inum: nat)
    requires ImageOk(sb, blk) && ImageOk(sb, blk') && inum < sb.ninodes &&
             blk'[IBlock(sb, inum)] == blk[IBlock(sb, inum)]
    ensures DiskAddrs(sb, blk', inum) == DiskAddrs(sb, blk, inum)
    ensures forall k: nat :: k < 16 ==> InodeWord(sb, blk', inum, k) == InodeWord(sb, blk, inum, k)
  {}

  /** The most distinct blocks one writei of n bytes at off can log. */
  function WriteCost(sb: Super, off: nat, n: nat): nat {
    var t := Touched(off, n);
    if sb.size <= BPB then t + 3
    else t + (if off % BSIZE != 0 && t > 0 then t - 1 else t) + 3
  }

  /** Data, bitmap, indirect and inode blocks together stay within the cost. */
  lemma CostBound(sb: Super, off: nat, n: nat, data: set<nat>, bits: set<nat>, addrs: seq<nat>, inode: nat)
    requires CostOk(sb, off, n, data, bits) && |addrs| == NDIRECT + 1 && addrs[NDIRECT] < sb.size
    ensures |data + bits + IndirectCost(sb, addrs) + {inode}| <= WriteCost(sb, off, n)
  {
    var ind := IndirectCost(sb, addrs);
    var tx := data + bits + ind + {inode};
    UnionSize(data, bits);
    UnionSize(data + bits, ind);
    UnionSize(data + bits + ind, {inode});
    if sb.size <= BPB {
      assert BBlock(sb, addrs[NDIRECT]) == sb.bmapstart;
      var few := {sb.bmapstart, addrs[NDIRECT], inode};
      UnionSize(data, few);
      assert tx <= data + few;
      SubsetSize(tx, data + few);
    }
  }

  lemma CostInFs(sb: Super, blk: Image, cur: Cur, owner: Owners, data: set<nat>, bits: set<nat>)
    requires Owned(sb, blk, cur, owner, {}) && InFs(sb, data + bits)
    ensures InFs(sb, data + bits + IndirectCost(sb, cur.addrs) + {IBlock(sb, cur.inum)})
  {
    Regions(sb, blk);
    PtrOwned(sb, blk, cur, owner, {}, cur.inum, NDIRECT);
  }

  lemma ReadSlice(sb: Super, blk: Image, addrs: seq<nat>, size: nat, at: nat, m: nat, b: nat)
    requires ImageOk(sb, blk) && |addrs| == NDIRECT + 1 && at + m <= size <= MAXBYTES && at % BSIZE + m <= BSIZE &&
             at < size
    requires FileBlock(sb, blk, addrs, at / BSIZE) == b && Data(sb, b)
    ensures Content(sb, blk, addrs, size)[at..at + m] == blk[b][at % BSIZE..at % BSIZE + m]
  {
    forall k: nat | at <= k < at + m
      ensures FileByte(sb, blk, addrs, k) == blk[b][at % BSIZE..at % BSIZE + m][k - at]
    {
      assert k / BSIZE == at / BSIZE && k % BSIZE == at % BSIZE + (k - at);
    }
  }

  // ---------- itrunc ----------

  predicate OnlyBitmap(sb: Super, blk: Image, blk': Image) {
    ImageOk(sb, blk) && |blk'| == |blk| &&
    forall c :: 0 <= c < |blk| && !(sb.bmapstart <= c < DataStart(sb)) ==> blk'[c] == blk[c]
  }

  lemma BitmapOnlyOthers(sb: Super, blk: Image, blk': Image, inum: nat)
    requires OnlyBitmap(sb, blk, blk')
    ensures OthersSame(sb, blk, blk', inum)
  {
    Regions(sb, blk);
    forall x: nat | x < sb.ninodes
      ensures DiskAddrs(sb, blk', x) == DiskAddrs(sb, blk, x)
      ensures forall i: nat :: i < SLOTS ==> DiskSlot(sb, blk', x, i) == DiskSlot(sb, blk, x, i)
      ensures forall k: nat :: k < MAXBYTES ==>
                FileByte(sb, blk', DiskAddrs(sb, blk', x), k) == FileByte(sb, blk, DiskAddrs(sb, blk, x), k)
    {
      DataKept(sb, blk, blk', DiskAddrs(sb, blk, x), 0);
    }
  }

  /** The owners left once the first i slots of an inode are gone. */
  /** The bitmap blocks that hold the bits of the blocks in s. */
  function BitBlocks(sb: Super, s: set<nat>): set<nat> {
    set b | b in s :: BBlock(sb, b)
  }

  /** The blocks in gone were freed: their bitmap blocks, and no others, were logged and changed. */
  ghost predicate Freeing(sb: Super, blk: Image, logged: set<nat>, blk': Image, logged': set<nat>, gone: set<nat>) {
    logged' == logged + BitBlocks(sb, gone) && Journaled(blk, blk', BitBlocks(sb, gone))
  }

  lemma FreeingJoin(sb: Super, blk: Image, logged: set<nat>, blk1: Image, logged1: set<nat>, blk2: Image,
                    logged2: set<nat>, gone: set<nat>, more: set<nat>)
    requires Freeing(sb, blk, logged, blk1, logged1, gone) && Freeing(sb, blk1, logged1, blk2, logged2, more)
    ensures Freeing(sb, blk, logged, blk2, logged2, gone + more)
  {
    assert BitBlocks(sb, gone + more) == BitBlocks(sb, gone) + BitBlocks(sb, more);
  }

  /** From the set `all` down to `some` and on down to `few`. */
  lemma FreeingMore(sb: Super, blk: Image, logged: set<nat>, blk1: Image, logged1: set<nat>, blk2: Image,
                    logged2: set<nat>, all: set<nat>, some: set<nat>, few: set<nat>)
    requires few <= some <= all
    requires Freeing(sb, blk, logged, blk1, logged1, all - some)
    requires Freeing(sb, blk1, logged1, blk2, logged2, some - few)
    ensures Freeing(sb, blk, logged, blk2, logged2, all - few)
  {
    FreeingJoin(sb, blk, logged, blk1, logged1, blk2, logged2, all - some, some - few);
    assert (all - some) + (some - few) == all - few;
  }

  lemma IndirectGone(sb: Super, blk: Image, cur: Cur, owner: Owners)
    requires Owned(sb, blk, cur, owner, {}) && cur.addrs[NDIRECT] != 0
    ensures {cur.addrs[NDIRECT]} + Entries(sb, blk, cur.addrs, 0) <= owner.Keys
  {
    PtrOwned(sb, blk, cur, owner, {}, cur.inum, NDIRECT);
    forall e | e in Entries(sb, blk, cur.addrs, 0)
      ensures e in owner
    {
      var j :| 0 <= j < NINDIRECT && Entry(sb, blk, cur.addrs, j) == e != 0;
      PtrOwned(sb, blk, cur, owner, {}, cur.inum, NDIRECT + 1 + j);
    }
  }

  /** The blocks of inode inum, its indirect block among them. */
  function BlocksOf(owner: Owners, inum: nat): set<nat> {
    set b | b in owner && owner[b].0 == inum
  }

  lemma BlocksGone(sb: Super, blk: Image, cur: Cur, owner: Owners, owner': Owners)
    requires Owned(sb, blk, cur, owner, {}) && owner' == Without(owner, cur.inum, SLOTS)
    ensures owner.Keys - owner'.Keys == BlocksOf(owner, cur.inum)
  {
    forall b | b in owner
      ensures b in owner' <==> owner[b].0 != cur.inum
    {
      OwnerPtr(sb, blk, cur, owner, {}, b);
    }
  }

  /** What truncating an inode logs: its record and the bitmap blocks of its blocks. */
  function TruncLogs(sb: Super, owner: Owners, inum: nat): set<nat> {
    BitBlocks(sb, BlocksOf(owner, inum)) + {IBlock(sb, inum)}
  }

  /** The owners of blocks other than those in the first i slots of inode inum. */
  function Without(owner: Owners, inum: nat, i: nat): Owners {
    map b | b in owner && !(owner[b].0 == inum && owner[b].1 < i) :: owner[b]
  }

  lemma WithoutNext(sb: Super, blk: Image, cur: Cur, owner0: Owners, owner: Owners, i: nat)
    requires Owned(sb, blk, cur, owner, {}) && i < NDIRECT && owner == Without(owner0, cur.inum, i)
    ensures (if cur.addrs[i] != 0 then owner - {cur.addrs[i]} else owner) == Without(owner0, cur.inum, i + 1)
  {
    PtrOwned(sb, blk, cur, owner, {}, cur.inum, i);
    forall b | b in owner
      ensures owner[b].0 == cur.inum && owner[b].1 == i <==> b == cur.addrs[i]
      ensures owner[b] == owner0[b] && (b == cur.addrs[i] ==> cur.addrs[i] != 0)
    {
      OwnerPtr(sb, blk, cur, owner, {}, b);
    }
    var rest := if cur.addrs[i] != 0 then owner - {cur.addrs[i]} else owner;
    assert forall b :: b in rest <==> b in Without(owner0, cur.inum, i + 1);
  }

  lemma EntriesNext(sb: Super, blk: Image, cur: Cur, owner: Owners, j: nat)
    requires Owned(sb, blk, cur, owner, {}) && j < NINDIRECT && cur.addrs[NDIRECT] != 0
    ensures Data(sb, cur.addrs[NDIRECT]) && Entry(sb, blk, cur.addrs, j) == Get32(blk[cur.addrs[NDIRECT]], j)
    ensures var (a, e) := (cur.addrs[NDIRECT], Entry(sb, blk, cur.addrs, j));
            {a} + Entries(sb, blk, cur.addrs, j + 1) ==
              if e == 0 then {a} + Entries(sb, blk, cur.addrs, j) else {a} + Entries(sb, blk, cur.addrs, j) - {e}
    ensures var e := Entry(sb, blk, cur.addrs, j); e != 0 ==> e in Entries(sb, blk, cur.addrs, j)
  {
    var (a, e) := (cur.addrs[NDIRECT], Entry(sb, blk, cur.addrs, j));
    PtrOwned(sb, blk, cur, owner, {}, cur.inum, NDIRECT);
    if e != 0 {
      PtrOwned(sb, blk, cur, owner, {}, cur.inum, NDIRECT + 1 + j);
      forall i | j < i < NINDIRECT && Entry(sb, blk, cur.addrs, i) != 0
        ensures Entry(sb, blk, cur.addrs, i) != e
      {
        PtrOwned(sb, blk, cur, owner, {}, cur.inum, NDIRECT + 1 + i);
      }
    }
  }

  lemma WithoutAll(sb: Super, blk: Image, cur: Cur, owner0: Owners, owner1: Owners, owner: Owners)
    requires Owned(sb, blk, cur, owner1, {}) && owner1 == Without(owner0, cur.inum, NDIRECT)
    requires owner == if cur.addrs[NDIRECT] == 0 then owner1
                      else owner1 - ({cur.addrs[NDIRECT]} + Entries(sb, blk, cur.addrs, 0))
    ensures owner == Without(owner0, cur.inum, SLOTS)
  {
    forall b | b in owner1
      ensures b in owner <==> owner1[b].0 != cur.inum
      ensures owner1[b].1 < SLOTS && owner1[b] == owner0[b]
    {
      OwnerPtr(sb, blk, cur, owner1, {}, b);
      if cur.addrs[NDIRECT] != 0 {
        GoneExactly(sb, blk, cur, owner1, b);
      }
    }
    assert forall b :: b in owner <==> b in Without(owner0, cur.inum, SLOTS);
  }

  /** What mapping a block beyond the direct ones can add to a transaction. */
  function IndirectCost(sb: Super, addrs: seq<nat>): set<nat>
    requires |addrs| == NDIRECT + 1
  {
    if addrs[NDIRECT] == 0 then {} else {addrs[NDIRECT], BBlock(sb, addrs[NDIRECT])}
  }

  lemma EntryFacts(sb: Super, blk: Image, cur: Cur, owner: Owners, j: nat)
    requires Owned(sb, blk, cur, owner, {}) && j < NINDIRECT && cur.addrs[NDIRECT] != 0
    ensures Data(sb, cur.addrs[NDIRECT])
    ensures var e := Get32(blk[cur.addrs[NDIRECT]], j);
            Slot(sb, blk, cur.addrs, NDIRECT + 1 + j) == e && (e != 0 ==> Data(sb, e))
  {
    PtrOwned(sb, blk, cur, owner, {}, cur.inum, NDIRECT);
    PtrOwned(sb, blk, cur, owner, {}, cur.inum, NDIRECT + 1 + j);
  }

  lemma EntryAllocated(sb: Super, blk: Image, cur: Cur, owner: Owners, b: nat, j: nat)
    requires Owned(sb, blk, cur, owner, {}) && Data(sb, b) && !InUse(sb, blk, b)
    requires j < NINDIRECT && cur.addrs[NDIRECT] != 0 && Slot(sb, blk, cur.addrs, NDIRECT + 1 + j) == 0
    ensures Data(sb, cur.addrs[NDIRECT])
    ensures var (a, blk1) := (cur.addrs[NDIRECT], Allocated(sb, blk, b));
            var blk2 := blk1[a := Put32(blk1[a], j, b)];
            && Owned(sb, blk2, cur, owner[b := (cur.inum, NDIRECT + 1 + j)], {})
            && SameFiles(sb, blk, cur, blk2, cur)
            && Slot(sb, blk2, cur.addrs, NDIRECT + 1 + j) == b
  {
    var (a, blk1) := (cur.addrs[NDIRECT], Allocated(sb, blk, b));
    EntryFacts(sb, blk, cur, owner, j);
    AllocateOwned(sb, blk, cur, owner, b);
    AllocateSame(sb, blk, cur, owner, b);
    assert Slot(sb, blk1, cur.addrs, NDIRECT + 1 + j) == 0 by {
      AllocatedSlots(sb, blk, cur, owner, b);
      assert Ptr(sb, blk1, cur, cur.inum, NDIRECT + 1 + j) == Ptr(sb, blk, cur, cur.inum, NDIRECT + 1 + j);
    }
    EntryLinked(sb, blk1, cur, owner, a, b, j);
    SameTrans(sb, blk, cur, blk1, cur, blk1[a := Put32(blk1[a], j, b)], cur);
  }

  lemma EntryLinked(sb: Super, blk: Image, cur: Cur, owner: Owners, a: nat, b: nat, j: nat)
    requires Owned(sb, blk, cur, owner, {b}) && j < NINDIRECT && cur.addrs[NDIRECT] == a != 0
    requires Slot(sb, blk, cur.addrs, NDIRECT + 1 + j) == 0 && blk[b] == Zeroed()
    ensures Data(sb, a)
    ensures var blk' := blk[a := Put32(blk[a], j, b)];
            && Owned(sb, blk', cur, owner[b := (cur.inum, NDIRECT + 1 + j)], {})
            && SameFiles(sb, blk, cur, blk', cur)
            && Slot(sb, blk', cur.addrs, NDIRECT + 1 + j) == b
  {
    PtrOwned(sb, blk, cur, owner, {b}, cur.inum, NDIRECT);
    var blk' := blk[a := Put32(blk[a], j, b)];
    LinkEntry(sb, blk, cur, owner, b, j);
    OneIndirect(sb, blk, cur, owner, {b});
    EntrySlots(sb, blk, cur, a, b, j);
    Regions(sb, blk);
    forall x: nat, i: nat | x < sb.ninodes && i < SLOTS && i != NDIRECT
      ensures Ptr(sb, blk, cur, x, i) != a
    {
      PtrOwned(sb, blk, cur, owner, {b}, x, i);
    }
    LinkSame(sb, blk, cur, blk', cur, NDIRECT + 1 + j, b);
  }
}
