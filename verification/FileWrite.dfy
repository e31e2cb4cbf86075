/** filewrite of file.c: a write is cut into transactions small enough for the log. */
module FileWrite {
  import opened Words
  import opened Keys
  import opened Blocks
  import opened FsLayout
  import opened Ownership
  import opened FileBytes
  import opened FileSystem
  import opened Sets
  import LogProtocol

  const MAXOPBLOCKS: nat := LogProtocol.MAXOPBLOCKS

  /** ((MAXOPBLOCKS-1-1-2) / 2) * 512. */
  const CHUNK: nat := 1536

  /**
   A chunk, wherever it starts, logs at most MAXOPBLOCKS blocks; with a single bitmap block, as on the
   disk mkfs builds, three fewer, which is within what LogLimit shows the log to need.
   */
  lemma ChunkFits(sb: Super, off: nat, n: nat)
    requires n <= CHUNK
    ensures WriteCost(sb, off, n) <= if sb.size <= BPB then MAXOPBLOCKS - 3 else MAXOPBLOCKS
  {
    if n > 0 {
      assert (off + n - 1) / BSIZE <= (off + CHUNK - 1) / BSIZE;
      assert off + CHUNK == off + 3 * BSIZE;
      if off % BSIZE == 0 {
        assert (off + CHUNK - 1) / BSIZE == off / BSIZE + 2;
      } else {
        assert (off + CHUNK - 1) / BSIZE == off / BSIZE + 3;
      }
    }
  }

  /**
   Truncation logs one block more than its blocks have bitmap blocks, so it fits what LogLimit shows the
   log to bear if and only if those are at most MAXOPBLOCKS - 2, as they are on any disk of less than
   MAXOPBLOCKS - 2 times BPB blocks.
   */
  lemma TruncFits(sb: Super, blk: Image, cur: Cur, owner: Owners)
    requires Owned(sb, blk, cur, owner, {})
    ensures |TruncLogs(sb, owner, cur.inum)| == 1 + |BitBlocks(sb, BlocksOf(owner, cur.inum))|
    ensures |TruncLogs(sb, owner, cur.inum)| < MAXOPBLOCKS <==>
              |BitBlocks(sb, BlocksOf(owner, cur.inum))| <= MAXOPBLOCKS - 2
    ensures sb.size < (MAXOPBLOCKS - 2) * BPB ==> |TruncLogs(sb, owner, cur.inum)| < MAXOPBLOCKS
    ensures InFs(sb, TruncLogs(sb, owner, cur.inum))
  {
    Regions(sb, blk);
    var bits := BitBlocks(sb, BlocksOf(owner, cur.inum));
    forall b | b in BlocksOf(owner, cur.inum)
      ensures b < sb.size
    {
      OwnerPtr(sb, blk, cur, owner, {}, b);
    }
    assert IBlock(sb, cur.inum) !in bits;
    BitBlocksRange(sb, BlocksOf(owner, cur.inum));
  }

  lemma BitBlocksRange(sb: Super, s: set<nat>)
    requires forall b <- s :: b < sb.size
    ensures |BitBlocks(sb, s)| <= sb.size / BPB + 1
  {
    var all := Interval(sb.bmapstart, sb.size / BPB + 1);
    forall c | c in BitBlocks(sb, s)
      ensures c in all
    {
      var b :| b in s && c == BBlock(sb, b);
      assert b / BPB <= sb.size / BPB;
    }
    SubsetSize(BitBlocks(sb, s), all);
  }

  lemma OverlayMore(c: seq<Byte>, off: nat, s: seq<Byte>, t: seq<Byte>)
    requires off <= |c|
    ensures Overlay(Overlay(c, off, s), off + |s|, t) == Overlay(c, off, s + t)
  {}

  /** Another chunk of src on top of the first `done` bytes. */
  lemma ChunkMore(c: seq<Byte>, off: nat, src: seq<Byte>, done: nat, n: nat)
    requires off <= |c| && done + n <= |src|
    ensures Overlay(Overlay(c, off, src[..done]), off + done, src[done..done + n]) == Overlay(c, off, src[..done + n])
  {
    OverlayMore(c, off, src[..done], src[done..done + n]);
    SlicesJoin(src, 0, done, done + n);
  }

  class File {
    const ip: Inode
    var off: nat

    constructor (ip: Inode, off: nat)
      ensures this.ip == ip && this.off == off
    {
      this.ip, this.off := ip, off;
    }
  }

  /** A transaction that logged no more than the log has reserved for it, and nothing outside the file system. */
  ghost predicate Fits(sb: Super, tx: set<nat>) {
    InFs(sb, tx) && |tx| <= if sb.size <= BPB then MAXOPBLOCKS - 3 else MAXOPBLOCKS
  }

  /** writei of a chunk between begin_op and end_op; tx is all that was logged in between. */
  method ChunkOp(fs: Fs, ip: Inode, s: seq<Byte>, off: nat) returns (r: Result, ghost tx: set<nat>)
    requires fs.Settled(ip) && |s| <= CHUNK && off < U32
    modifies fs, ip, ip.addrs
    ensures !r.Panic? ==> fs.Settled(ip)
    ensures r.Err? <==> off > old(ip.size) || off + |s| >= U32 || off + |s| > MAXBYTES
    ensures r.Err? ==> fs.blk == old(fs.blk) && ip.size == old(ip.size)
    ensures r.Panic? ==> DiskFull(fs.sb, fs.blk)
    ensures r.Count? ==> r.n == |s| && off <= |FileOf(fs.sb, old(fs.blk), ip.inum)|
    ensures r.Count? ==> FileOf(fs.sb, fs.blk, ip.inum) == Overlay(FileOf(fs.sb, old(fs.blk), ip.inum), off, s)
    ensures r.Count? ==> OthersSame(fs.sb, old(fs.blk), fs.blk, ip.inum)
    ensures r.Count? && Consistent(fs.sb, old(fs.blk)) ==> Consistent(fs.sb, fs.blk)
    ensures !r.Panic? ==> tx == fs.logged && Fits(fs.sb, tx) && Journaled(old(fs.blk), fs.blk, tx)
  {
    fs.logged := {};
    ChunkFits(fs.sb, off, |s|);
    ghost var blocks;
    r, blocks := fs.Writei(ip, s, off);
    tx := fs.logged;
    if r.Count? {
      SubsetSize(tx, blocks);
      ConsistentAgain(fs.sb, old(fs.blk), fs.blk, ip.View(), fs.owner);
    }
  }

  /** A write asked for: of which inode, at which offset, which bytes, and the disk before it. */
  datatype Job = Job(inum: nat, off: nat, src: seq<Byte>, blk: Image)

  /**
   The disk blk has the first `done` bytes of the write, and is otherwise the disk before it; if every
   block had one owner, the bitmap was exact and no file had a hole, so it is still.
   */
  ghost predicate Stage(sb: Super, j: Job, blk: Image, done: nat) {
    forall k {:trigger See(k)} :: k == WITHIN ==> StageNow(sb, j, blk, done)
  }

  ghost predicate StageNow(sb: Super, j: Job, blk: Image, done: nat) {
    && ImageOk(sb, j.blk) && ImageOk(sb, blk) && j.inum < sb.ninodes && done <= |j.src|
    && j.off <= |FileOf(sb, j.blk, j.inum)|
    && FileOf(sb, blk, j.inum) == Overlay(FileOf(sb, j.blk, j.inum), j.off, j.src[..done])
    && OthersSame(sb, j.blk, blk, j.inum) && (Consistent(sb, j.blk) ==> Consistent(sb, blk))
  }

  lemma StageStart(sb: Super, j: Job)
    requires ImageOk(sb, j.blk) && j.inum < sb.ninodes && j.off <= |FileOf(sb, j.blk, j.inum)|
    ensures Stage(sb, j, j.blk, 0)
  {
    assert j.src[..0] == [];
    assert Overlay(FileOf(sb, j.blk, j.inum), j.off, []) == FileOf(sb, j.blk, j.inum);
    assert StageNow(sb, j, j.blk, 0);
  }

  lemma StageFacts(sb: Super, j: Job, blk: Image, done: nat)
    requires Stage(sb, j, blk, done)
    ensures ImageOk(sb, blk) && j.inum < sb.ninodes && done <= |j.src| && j.off + done <= |FileOf(sb, blk, j.inum)|
  {
    assert See(WITHIN);
  }

  lemma StageMore(sb: Super, j: Job, blk: Image, done: nat, blk': Image, n: nat)
    requires Stage(sb, j, blk, done) && OthersSame(sb, blk, blk', j.inum) && j.inum < sb.ninodes && done + n <= |j.src|
    requires j.off + done <= |FileOf(sb, blk, j.inum)| && (Consistent(sb, blk) ==> Consistent(sb, blk'))
    requires FileOf(sb, blk', j.inum) == Overlay(FileOf(sb, blk, j.inum), j.off + done, j.src[done..done + n])
    ensures Stage(sb, j, blk', done + n)
  {
    assert See(WITHIN);
    ChunkMore(FileOf(sb, j.blk, j.inum), j.off, j.src, done, n);
    OthersTrans(sb, j.blk, blk, blk', j.inum);
    assert StageNow(sb, j, blk', done + n);
  }

  /** One turn of filewrite's loop: begin_op, ilock, writei, iunlock, end_op. */
  method WriteOp(fs: Fs, f: File, src: seq<Byte>, done: nat, ghost j: Job) returns (r: Result, ghost tx: set<nat>)
    requires fs.Settled(f.ip) && j.inum == f.ip.inum && j.src == src && f.off == j.off + done && done < |src| < U32
    requires Stage(fs.sb, j, fs.blk, done)
    modifies fs, f, f.ip, f.ip.addrs
    ensures !r.Panic? ==> fs.Settled(f.ip) && Fits(fs.sb, tx) && Journaled(old(fs.blk), fs.blk, tx)
    ensures r.Panic? ==> DiskFull(fs.sb, fs.blk)
    ensures r.Err? <==> j.off + Min(|src|, done + CHUNK) > MAXBYTES
    ensures r.Err? ==> fs.blk == old(fs.blk) && f.off == old(f.off)
    ensures r.Count? ==>
              r.n == Min(|src| - done, CHUNK) && f.off == old(f.off) + r.n && Stage(fs.sb, j, fs.blk, done + r.n)
  {
    var n1 := Min(|src| - done, CHUNK);
    ghost var blk1 := fs.blk;
    StageFacts(fs.sb, j, fs.blk, done);
    r, tx := ChunkOp(fs, f.ip, src[done..done + n1], f.off);
    if r.Count? {
      assert r.n == n1;
      StageMore(fs.sb, j, blk1, done, fs.blk, n1);
      f.off := f.off + n1;
    }
  }

  /** How much of n bytes the first k chunks are. */
  function Upto(n: nat, k: nat): nat {
    Min(n, k * CHUNK)
  }

  lemma UptoNext(n: nat, k: nat)
    ensures Upto(n, k) < n ==> Upto(n, k + 1) == Upto(n, k) + Min(n - Upto(n, k), CHUNK)
  {}

  /** The disks between the transactions of a write, and the blocks each transaction logged. */
  ghost predicate Steps(sb: Super, j: Job, images: seq<Image>, txs: seq<set<nat>>) {
    && |images| == |txs| + 1 && images[0] == j.blk
    && forall k {:trigger See(k)} :: See(k) && 0 <= k < |images| ==>
         && Stage(sb, j, images[k], Upto(|j.src|, k))
         && (k > 0 ==> Fits(sb, txs[k - 1]) && Journaled(images[k - 1], images[k], txs[k - 1]))
  }

  lemma StepsMore(sb: Super, j: Job, images: seq<Image>, txs: seq<set<nat>>, blk: Image, tx: set<nat>)
    requires Steps(sb, j, images, txs) && Stage(sb, j, blk, Upto(|j.src|, |images|))
    requires Fits(sb, tx) && Journaled(images[|images| - 1], blk, tx)
    ensures Steps(sb, j, images + [blk], txs + [tx])
  {
    var images', txs' := images + [blk], txs + [tx];
    forall k | See(k) && 0 <= k < |images'|
      ensures Stage(sb, j, images'[k], Upto(|j.src|, k))
      ensures k > 0 ==> Fits(sb, txs'[k - 1]) && Journaled(images'[k - 1], images'[k], txs'[k - 1])
    {
      if k < |images| {
        assert See(k);
      }
    }
  }

  /** One turn, with the record of the disks between transactions. */
  method WriteStep(fs: Fs, f: File, src: seq<Byte>, i: nat, ghost j: Job, ghost images: seq<Image>,
                   ghost txs: seq<set<nat>>)
      returns (r: Result, ghost images': seq<Image>, ghost txs': seq<set<nat>>)
    requires fs.Settled(f.ip) && j.inum == f.ip.inum && j.src == src && f.off == j.off + i && i < |src| < U32
    requires Steps(fs.sb, j, images, txs) && fs.blk == images[|txs|] && i == Upto(|src|, |txs|)
    modifies fs, f, f.ip, f.ip.addrs
    ensures Steps(fs.sb, j, images', txs') && (!r.Panic? ==> fs.Settled(f.ip) && fs.blk == images'[|txs'|])
    ensures r.Panic? ==> DiskFull(fs.sb, fs.blk)
    ensures r.Err? <==> !r.Panic? && j.off + Min(|src|, i + CHUNK) > MAXBYTES
    ensures !r.Count? ==> txs' == txs && images' == images && (r.Err? ==> f.off == old(f.off))
    ensures r.Count? ==> 0 < r.n <= |src| - i && i + r.n == Upto(|src|, |txs'|) && f.off == old(f.off) + r.n
    ensures r.Count? ==> j.off + i + r.n <= MAXBYTES
  {
    assert See(|txs|);
    UptoNext(|src|, |txs|);
    ghost var tx;
    r, tx := WriteOp(fs, f, src, i, j);
    images', txs' := images, txs;
    if r.Count? {
      StepsMore(fs.sb, j, images, txs, fs.blk, tx);
      images', txs' := images + [fs.blk], txs + [tx];
    }
  }

  /**
   filewrite on an inode: the whole of src lands at the file offset, across as many transactions as it
   takes, each within the log's reservation; a write that cannot fit the file stops after whole chunks.
   */
  method Filewrite(fs: Fs, f: File, src: seq<Byte>)
      returns (r: Result, ghost images: seq<Image>, ghost txs: seq<set<nat>>)
    requires fs.Settled(f.ip) && f.off <= f.ip.size && |src| < U32
    modifies fs, f, f.ip, f.ip.addrs
    ensures Steps(fs.sb, Job(f.ip.inum, old(f.off), src, old(fs.blk)), images, txs)
    ensures r.Panic? ==> DiskFull(fs.sb, fs.blk)
    ensures !r.Panic? ==> fs.Settled(f.ip) && fs.blk == images[|txs|] && f.off == old(f.off) + Upto(|src|, |txs|)
    ensures r.Count? ==> r.n == |src| == Upto(|src|, |txs|)
    ensures r.Err? <==> !r.Panic? && old(f.off) + |src| > MAXBYTES
  {
    ghost var j := Job(f.ip.inum, f.off, src, fs.blk);
    var i := 0;
    images, txs := [fs.blk], [];
    StageStart(fs.sb, j);
    while i < |src|
      invariant 0 <= i <= |src| && fs.Settled(f.ip) && f.off == j.off + i
      invariant Steps(fs.sb, j, images, txs) && fs.blk == images[|txs|] && i == Upto(|src|, |txs|)
      invariant j.off + i <= MAXBYTES
    {
      var w;
      w, images, txs := WriteStep(fs, f, src, i, j, images, txs);
      if !w.Count? {
        return w, images, txs;
      }
      i := i + w.n;
    }
    r := Count(|src|);
  }
}
