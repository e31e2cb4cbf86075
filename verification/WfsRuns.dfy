/**
 Runs of the log-structured file system from mkfs on: mkdir, mknod, write, read and unlink answer, and
 change what every path leads to, as a table of paths would.
 */
module WfsRuns {
  import opened Wrappers
  import opened Blocks
  import opened WfsTree
  import opened WfsLog
  import opened Wfs

  // ---------- the specification ----------

  type Names = map<Path, Node>

  datatype Call =
    | Make(dir: Path, name: string, folder: bool)
    | Put(path: Path, buf: seq<Byte>, off: nat)
    | Get(path: Path, size: nat, off: nat)
    | Remove(dir: Path, name: string)

  function Target(c: Call): Path {
    match c
    case Make(p, name, _) => p + [name]
    case Put(p, _, _) => p
    case Get(p, _, _) => p
    case Remove(p, name) => p + [name]
  }

  /** The kernel asks only for paths whose inner components are directories, as far as they exist. */
  predicate Walks(names: Names, p: Path) {
    forall n :: 0 <= n < |p| && p[..n] in names ==> names[p[..n]].Folder?
  }

  predicate IsFolder(names: Names, p: Path) {
    p in names && names[p].Folder?
  }

  predicate IsFile(names: Names, p: Path) {
    p in names && names[p].Bytes?
  }

  /** What an answer of Ok does to the paths. */
  function After(names: Names, c: Call): Names {
    match c
    case Make(p, name, folder) => names[p + [Kept(name)] := if folder then Folder else Bytes([])]
    case Put(p, buf, off) =>
      if !IsFile(names, p) || off > |names[p].bytes| then names else
        names[p := Bytes(Overlay(names[p].bytes, off, buf))]
    case Get(_, _, _) => names
    case Remove(p, name) => map q | q in names && !(p + [name] <= q) :: names[q]
  }

  /** The answers there can be, whatever room there is. */
  predicate Fits(names: Names, c: Call, r: Status) {
    match c
    case Make(p, _, _) => if IsFolder(names, p) then r in {Ok, NoSpace, Outside, NoNumber} else r == NoEntry
    case Put(p, _, off) =>
      if p !in names then r == NoEntry
      else if names[p].Folder? then r == NotAFile
      else if off > |names[p].bytes| then r == TooFar
      else r in {Ok, NoSpace, Outside}
    case Get(p, _, _) => r == if p !in names then NoEntry else if names[p].Folder? then NotAFile else Ok
    case Remove(p, name) => if p + [name] in names then r in {Ok, Outside} else r == NoEntry
  }

  /** A read gives the bytes from off on, as many as there are and as many as were asked for. */
  predicate Reads(c: seq<Byte>, off: nat, size: nat, buf: seq<Byte>) {
    && |buf| <= size && (off >= |c| ==> buf == [])
    && (off < |c| ==> off + |buf| <= |c| && buf == c[off..off + |buf|] && (|buf| == size || off + |buf| == |c|))
  }

  // ---------- the disk ----------

  /** Every path leads where the table says. */
  ghost predicate Shows(t: Tree, names: Names) {
    forall q {:trigger NodeAt(t, q)} :: NodeAt(t, q) == if q in names then Some(names[q]) else None
  }

  lemma WalksTree(t: Tree, names: Names, p: Path)
    requires Shows(t, names) && Walks(names, p)
    ensures Walkable(t, p)
  {
    forall n | 0 <= n < |p| && Resolve(t, p[..n]).Some?
      ensures Resolve(t, p[..n]).value in t && t[Resolve(t, p[..n]).value].Dir?
    {
      Live(t, p[..n]);
      assert NodeAt(t, p[..n]).Some?;
    }
  }

  lemma ShowsFile(t: Tree, names: Names, p: Path)
    requires Shows(t, names)
    ensures LeadsToDir(t, p) <==> IsFolder(names, p)
    ensures Resolve(t, p).None? <==> p !in names
    ensures FileAt(t, p) == if IsFile(names, p) then Some(names[p].bytes) else None
  {
    assert NodeAt(t, p) == if p in names then Some(names[p]) else None;
    if Resolve(t, p).Some? {
      Live(t, p);
    }
  }

  method ServeMake(disk: Disk, p: Path, name: string, folder: bool, ghost names: Names) returns (r: Status)
    requires disk.Valid() && TreeOk(disk.Tree()) && Shows(disk.Tree(), names) && Walks(names, p + [name])
    modifies disk
    ensures Fits(names, Make(p, name, folder), r)
    ensures r == NoEntry || r == NoSpace ==> disk.Valid() && disk.Tree() == old(disk.Tree())
    ensures r == Ok ==> disk.Valid()
    ensures r == Ok && p + [Kept(name)] !in names ==>
              TreeOk(disk.Tree()) && Shows(disk.Tree(), After(names, Make(p, name, folder)))
  {
    ghost var t, d, i := disk.Tree(), 0, 0;
    WalksTree(t, names, p + [name]);
    ShowsFile(t, names, p);
    assert NodeAt(t, p + [Kept(name)]).None? <==> p + [Kept(name)] !in names;
    r, d, i := disk.Create(p, name, folder);
  }

  method ServePut(disk: Disk, p: Path, buf: seq<Byte>, off: nat, ghost names: Names) returns (r: Status)
    requires disk.Valid() && TreeOk(disk.Tree()) && Shows(disk.Tree(), names) && Walks(names, p)
    modifies disk
    ensures Fits(names, Put(p, buf, off), r)
    ensures r != Ok && r != Outside ==> disk.Valid() && disk.Tree() == old(disk.Tree())
    ensures r == Ok ==> disk.Valid() && TreeOk(disk.Tree()) && Shows(disk.Tree(), After(names, Put(p, buf, off)))
  {
    ghost var t, c := disk.Tree(), [];
    WalksTree(t, names, p);
    ShowsFile(t, names, p);
    r, c := disk.Write(p, buf, off);
  }

  method ServeGet(disk: Disk, p: Path, size: nat, off: nat, ghost names: Names) returns (r: Status, buf: seq<Byte>)
    requires disk.Valid() && TreeOk(disk.Tree()) && Shows(disk.Tree(), names) && Walks(names, p)
    modifies disk
    ensures Fits(names, Get(p, size, off), r) && disk.Valid() && disk.Tree() == old(disk.Tree())
    ensures r == Ok ==> IsFile(names, p) && Reads(names[p].bytes, off, size, buf)
  {
    WalksTree(disk.Tree(), names, p);
    ShowsFile(disk.Tree(), names, p);
    r, buf := disk.Read(p, size, off);
  }

  method ServeRemove(disk: Disk, p: Path, name: string, ghost names: Names) returns (r: Status)
    requires disk.Valid() && TreeOk(disk.Tree()) && Shows(disk.Tree(), names) && Walks(names, p + [name])
    modifies disk
    ensures Fits(names, Remove(p, name), r)
    ensures r == NoEntry ==> disk.Valid() && disk.Tree() == old(disk.Tree())
    ensures r == Ok ==> disk.Valid() && TreeOk(disk.Tree()) && Shows(disk.Tree(), After(names, Remove(p, name)))
  {
    ghost var t, d, i := disk.Tree(), 0, 0;
    WalksTree(t, names, p + [name]);
    ShowsFile(t, names, p + [name]);
    r, d, i := disk.Unlink(p, name);
  }

  /** One call that the kernel passes on. */
  method Serve(disk: Disk, c: Call, ghost names: Names) returns (r: Status, buf: seq<Byte>)
    requires disk.Valid() && TreeOk(disk.Tree()) && Shows(disk.Tree(), names) && Walks(names, Target(c))
    modifies disk
    ensures Fits(names, c, r)
    ensures r != Ok && r != Outside && r != NoNumber ==> disk.Valid() && disk.Tree() == old(disk.Tree())
    ensures r == Ok ==> disk.Valid()
    ensures r == Ok && !(c.Make? && c.dir + [Kept(c.name)] in names) ==>
              TreeOk(disk.Tree()) && Shows(disk.Tree(), After(names, c))
    ensures c.Get? && r == Ok ==> IsFile(names, c.path) && Reads(names[c.path].bytes, c.off, c.size, buf)
  {
    buf := [];
    match c
    case Make(p, name, folder) =>
      r := ServeMake(disk, p, name, folder, names);
    case Put(p, b, off) =>
      r := ServePut(disk, p, b, off, names);
    case Get(p, size, off) =>
      r, buf := ServeGet(disk, p, size, off, names);
    case Remove(p, name) =>
      r := ServeRemove(disk, p, name, names);
  }

  // ---------- whole runs ----------

  /** None for a call that the kernel does not pass on. */
  datatype Answer = Answer(status: Option<Status>, buf: seq<Byte>)

  function NamesAfter(calls: seq<Call>, outs: seq<Answer>): Names
    requires |outs| <= |calls|
  {
    if outs == [] then map[[] := Folder] else
      var n := |outs| - 1;
      var names := NamesAfter(calls, outs[..n]);
      if outs[n].status == Some(Ok) then After(names, calls[n]) else names
  }

  /** The answer to a call when the paths are as in names. */
  predicate Answers(names: Names, c: Call, out: Answer) {
    if Walks(names, Target(c)) then
      && out.status.Some? && Fits(names, c, out.status.value)
      && (c.Get? && out.status == Some(Ok) ==>
            IsFile(names, c.path) && Reads(names[c.path].bytes, c.off, c.size, out.buf))
    else out.status == None
  }

  predicate AllAnswer(calls: seq<Call>, outs: seq<Answer>) {
    |outs| <= |calls| && forall n :: 0 <= n < |outs| ==> Answers(NamesAfter(calls, outs[..n]), calls[n], outs[n])
  }

  /** After it the disk is no longer known: a store outside, no inode number, or a path that existed made again. */
  predicate Ends(names: Names, c: Call, out: Answer) {
    || out.status == Some(Outside) || out.status == Some(NoNumber)
    || (c.Make? && out.status == Some(Ok) && c.dir + [Kept(c.name)] in names)
  }

  lemma AnswersMore(calls: seq<Call>, outs: seq<Answer>, out: Answer)
    requires AllAnswer(calls, outs) && |outs| < |calls| && Answers(NamesAfter(calls, outs), calls[|outs|], out)
    ensures AllAnswer(calls, outs + [out])
  {
    var outs' := outs + [out];
    forall n | 0 <= n < |outs'|
      ensures Answers(NamesAfter(calls, outs'[..n]), calls[n], outs'[n])
    {
      if n < |outs| {
        assert outs'[..n] == outs[..n];
      } else {
        assert outs'[..n] == outs;
      }
    }
  }

  /**
   mkfs, and then any calls: up to the first that ends the knowledge of the disk, every answer is one that
   the table of paths allows, and every path leads where the table says.
   */
  method Play(size: nat, calls: seq<Call>) returns (disk: Disk, outs: seq<Answer>, names: Names, known: bool)
    ensures AllAnswer(calls, outs) && names == NamesAfter(calls, outs)
    ensures known ==> |outs| == |calls| && disk.Valid() && TreeOk(disk.Tree()) && Shows(disk.Tree(), names)
    ensures !known ==>
              |outs| > 0 && Ends(NamesAfter(calls, outs[..|outs| - 1]), calls[|outs| - 1], outs[|outs| - 1])
  {
    disk := new Disk(size);
    outs, names, known := [], map[[] := Folder], true;
    MkfsShows(disk.Tree());
    while |outs| < |calls|
      invariant fresh(disk) && disk.Valid() && TreeOk(disk.Tree()) && Shows(disk.Tree(), names)
      invariant AllAnswer(calls, outs) && names == NamesAfter(calls, outs)
      decreases |calls| - |outs|
    {
      var c := calls[|outs|];
      var out := Answer(None, []);
      if Walks(names, Target(c)) {
        var r, buf := Serve(disk, c, names);
        out := Answer(Some(r), buf);
      }
      known := !Ends(names, c, out);
      AnswersMore(calls, outs, out);
      assert (outs + [out])[..|outs|] == outs;
      if out.status == Some(Ok) {
        names := After(names, c);
      }
      outs := outs + [out];
      if !known {
        return;
      }
    }
  }

  lemma MkfsShows(t: Tree)
    requires t == map[0 := Dir([])]
    ensures Shows(t, map[[] := Folder])
  {
    forall q
      ensures NodeAt(t, q) == if q == [] then Some(Folder) else None
    {
      if q != [] {
        OnlyRoot(t, q);
      }
    }
  }

  lemma {:induction false} OnlyRoot(t: Tree, q: Path)
    requires t == map[0 := Dir([])] && q != []
    ensures Resolve(t, q).None?
  {
    if |q| > 1 {
      OnlyRoot(t, q[..|q| - 1]);
    } else {
      assert Find(t[0].dents, q[0]).None?;
    }
  }
}
