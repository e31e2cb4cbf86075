/** Runs of reads, writes and truncations of many files: fs.c refines an array of byte arrays. */
module FileRuns {
  import opened Words
  import opened Wrappers
  import opened Blocks
  import opened FsLayout
  import opened Ownership
  import opened FileBytes
  import opened FileSystem

  // ---------- the specification ----------

  /** The bytes of each file, by inode number. */
  type Files = seq<seq<Byte>>

  datatype Op =
    | Write(x: nat, off: nat, src: seq<Byte>)
    | Read(x: nat, off: nat, n: nat)
    | Trunc(x: nat)

  datatype Out = Failed | Wrote(n: nat) | Got(bytes: seq<Byte>) | Emptied

  /** The numbers fit the machine's words. */
  predicate Fair(op: Op) {
    (op.Write? ==> op.off < U32 && |op.src| < U32) && (op.Read? ==> op.off < U32 && op.n < U32)
  }

  function After(files: Files, op: Op): Files
    requires op.x < |files|
  {
    match op
    case Write(x, off, src) => if WriteFails(files[x], op) then files else files[x := Overlay(files[x], off, src)]
    case Read(_, _, _) => files
    case Trunc(x) => files[x := []]
  }

  predicate WriteFails(f: seq<Byte>, op: Op)
    requires op.Write?
  {
    op.off > |f| || op.off + |op.src| >= U32 || op.off + |op.src| > MAXBYTES
  }

  function Answer(f: seq<Byte>, op: Op): Out {
    match op
    case Write(x, off, src) => if WriteFails(f, op) then Failed else Wrote(|src|)
    case Read(x, off, n) => if off > |f| || off + n >= U32 then Failed else Got(f[off..Min(off + n, |f|)])
    case Trunc(_) => Emptied
  }

  predicate Known(files: Files, ops: seq<Op>) {
    forall k :: 0 <= k < |ops| ==> ops[k].x < |files|
  }

  function AfterAll(files: Files, ops: seq<Op>): (r: Files)
    requires Known(files, ops)
    ensures |r| == |files|
  {
    if ops == [] then files else After(AfterAll(files, ops[..|ops| - 1]), ops[|ops| - 1])
  }

  function Answers(files: Files, ops: seq<Op>): seq<Out>
    requires Known(files, ops)
  {
    if ops == [] then []
    else
      var (front, op) := (ops[..|ops| - 1], ops[|ops| - 1]);
      Answers(files, front) + [Answer(AfterAll(files, front)[op.x], op)]
  }

  lemma {:induction false} AnswersPrefix(files: Files, ops: seq<Op>, n: nat)
    requires n <= |ops| && Known(files, ops)
    ensures Answers(files, ops[..n]) <= Answers(files, ops)
    decreases |ops|
  {
    if n < |ops| {
      var front := ops[..|ops| - 1];
      assert front[..n] == ops[..n];
      AnswersPrefix(files, front, n);
    } else {
      assert ops[..n] == ops;
    }
  }

  // ---------- the disk ----------

  ghost function AllFiles(sb: Super, blk: Image): (r: Files)
    requires ImageOk(sb, blk)
    ensures |r| == sb.ninodes && forall x :: 0 <= x < sb.ninodes ==> r[x] == FileOf(sb, blk, x)
  {
    seq(sb.ninodes, x requires 0 <= x < sb.ninodes => FileOf(sb, blk, x))
  }

  /** What an operation on inode inum leaves behind is whole again, and every other file is as it was. */
  lemma FilesAgain(sb: Super, blk: Image, owner0: Owners, blk': Image, cur: Cur, owner: Owners)
    requires Whole(sb, blk, owner0) && OthersSame(sb, blk, blk', cur.inum) && Owned(sb, blk', cur, owner, {})
    requires DiskAddrs(sb, blk', cur.inum) == cur.addrs && Mapped(sb, blk', cur.inum)
    ensures Whole(sb, blk', owner)
    ensures AllFiles(sb, blk') == AllFiles(sb, blk)[cur.inum := FileOf(sb, blk', cur.inum)]
  {
    WholeAgain(sb, blk, owner0, blk', cur, owner);
    forall x | 0 <= x < sb.ninodes
      ensures x != cur.inum ==> FileOf(sb, blk', x) == FileOf(sb, blk, x)
    {
      if x != cur.inum {
        OtherFile(sb, blk, blk', cur.inum, x);
      }
    }
  }

  // ---------- the code ----------

  /** ilock of an inode not in the cache: its record, read from disk. */
  method Load(fs: Fs, x: nat) returns (ip: Inode)
    requires Whole(fs.sb, fs.blk, fs.owner) && x < fs.sb.ninodes
    ensures fresh(ip) && fresh(ip.addrs) && ip.inum == x && fs.Settled(ip)
    ensures |FileOf(fs.sb, fs.blk, x)| == ip.size
  {
    ghost var cur := Cur(x, DiskAddrs(fs.sb, fs.blk, x));
    Rebase(fs.sb, fs.blk, Cur(0, DiskAddrs(fs.sb, fs.blk, 0)), fs.owner, x);
    assert Mapped(fs.sb, fs.blk, x);
    var words := (InodeWord(fs.sb, fs.blk, x, 0), InodeWord(fs.sb, fs.blk, x, 1));
    ip := new Inode(x, DiskAddrs(fs.sb, fs.blk, x), InodeWord(fs.sb, fs.blk, x, 2), words);
  }

  method ApplyWrite(fs: Fs, op: Op) returns (out: Option<Out>)
    requires Whole(fs.sb, fs.blk, fs.owner) && op.x < fs.sb.ninodes && Fair(op) && op.Write?
    modifies fs
    ensures out.None? ==> DiskFull(fs.sb, fs.blk)
    ensures out.Some? ==> Whole(fs.sb, fs.blk, fs.owner)
    ensures out.Some? ==> AllFiles(fs.sb, fs.blk) == After(AllFiles(fs.sb, old(fs.blk)), op)
    ensures out.Some? ==> out.value == Answer(FileOf(fs.sb, old(fs.blk), op.x), op)
  {
    ghost var blk0, owner0 := fs.blk, fs.owner;
    var ip := Load(fs, op.x);
    var r, _ := fs.Writei(ip, op.src, op.off);
    if r.Panic? {
      return None;
    }
    if r.Count? {
      FilesAgain(fs.sb, blk0, owner0, fs.blk, ip.View(), fs.owner);
      return Some(Wrote(r.n));
    }
    return Some(Failed);
  }

  method ApplyRead(fs: Fs, op: Op) returns (out: Out)
    requires Whole(fs.sb, fs.blk, fs.owner) && op.x < fs.sb.ninodes && Fair(op) && op.Read?
    modifies fs
    ensures Whole(fs.sb, fs.blk, fs.owner) && fs.blk == old(fs.blk)
    ensures out == Answer(FileOf(fs.sb, old(fs.blk), op.x), op)
  {
    ghost var blk0, owner0 := fs.blk, fs.owner;
    var ip := Load(fs, op.x);
    var r, dst := fs.Readi(ip, op.off, op.n);
    FilesAgain(fs.sb, blk0, owner0, fs.blk, ip.View(), fs.owner);
    return if r.Err? then Failed else Got(dst);
  }

  method ApplyTrunc(fs: Fs, x: nat)
    requires Whole(fs.sb, fs.blk, fs.owner) && x < fs.sb.ninodes
    modifies fs
    ensures Whole(fs.sb, fs.blk, fs.owner)
    ensures AllFiles(fs.sb, fs.blk) == AllFiles(fs.sb, old(fs.blk))[x := []]
  {
    ghost var blk0, owner0 := fs.blk, fs.owner;
    var ip := Load(fs, x);
    var ok := fs.Itrunc(ip);
    FilesAgain(fs.sb, blk0, owner0, fs.blk, ip.View(), fs.owner);
  }

  /** One operation; None stands for balloc's panic. */
  method Apply(fs: Fs, op: Op) returns (out: Option<Out>)
    requires Whole(fs.sb, fs.blk, fs.owner) && op.x < fs.sb.ninodes && Fair(op)
    modifies fs
    ensures out.None? ==> DiskFull(fs.sb, fs.blk)
    ensures out.Some? ==> Whole(fs.sb, fs.blk, fs.owner)
    ensures out.Some? ==> AllFiles(fs.sb, fs.blk) == After(AllFiles(fs.sb, old(fs.blk)), op)
    ensures out.Some? ==> out.value == Answer(AllFiles(fs.sb, old(fs.blk))[op.x], op)
  {
    match op
    case Write(_, _, _) =>
      out := ApplyWrite(fs, op);
    case Read(_, _, _) =>
      var answer := ApplyRead(fs, op);
      out := Some(answer);
    case Trunc(x) =>
      ApplyTrunc(fs, x);
      out := Some(Emptied);
  }

  /**
   Any sequence of operations on any files: what each answers, and what every file holds at the end, is
   what byte arrays would give; every block keeps one owner and no file gets a hole. It stops early only
   on a full disk.
   */
  method Serve(fs: Fs, ops: seq<Op>) returns (outs: seq<Out>)
    requires Whole(fs.sb, fs.blk, fs.owner) && Known(AllFiles(fs.sb, fs.blk), ops)
    requires forall k :: 0 <= k < |ops| ==> Fair(ops[k])
    modifies fs
    ensures |outs| <= |ops| && (|outs| < |ops| ==> DiskFull(fs.sb, fs.blk))
    ensures outs <= Answers(old(AllFiles(fs.sb, fs.blk)), ops)
    ensures |outs| == |ops| ==> Whole(fs.sb, fs.blk, fs.owner)
    ensures |outs| == |ops| ==> AllFiles(fs.sb, fs.blk) == AfterAll(old(AllFiles(fs.sb, fs.blk)), ops)
  {
    ghost var files := AllFiles(fs.sb, fs.blk);
    outs := [];
    for n := 0 to |ops|
      invariant |outs| == n && Whole(fs.sb, fs.blk, fs.owner) && AllFiles(fs.sb, fs.blk) == AfterAll(files, ops[..n])
      invariant outs == Answers(files, ops[..n])
    {
      assert ops[..n + 1][..n] == ops[..n];
      var out := Apply(fs, ops[n]);
      if out.None? {
        AnswersPrefix(files, ops, n);
        return;
      }
      outs := outs + [out.value];
    }
    assert ops[..|ops|] == ops;
  }
}
