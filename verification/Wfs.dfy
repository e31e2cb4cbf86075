/** The operations of mount.wfs.c over the log, refined to operations on a file tree. */
module Wfs {
  import opened Wrappers
  import opened Blocks
  import opened WfsTree
  import opened WfsLog

  /**
   * Outside: a store goes past the end of the mapped disk. NoNumber: the new inode keeps the number the bytes of the
   * disk happened to hold. Nothing is known of the disk after either.
   */
  datatype Status = Ok | NoEntry | NoSpace | TooFar | NotAFile | Outside | NoNumber

  predicate ShortNames(b: Body) {
    b.Dir? ==> forall k :: 0 <= k < |b.dents| ==> |b.dents[k].name| < NAMELEN
  }

  predicate EntriesOk(log: seq<Entry>) {
    forall k :: 0 <= k < |log| ==> log[k].ino < INODES && ShortNames(log[k].body)
  }

  /** strncpy of at most 31 characters. */
  function Truncated(name: string): string {
    if |name| < NAMELEN then name else name[..NAMELEN - 1]
  }

  /** No component of the path but the last is asked of a file. */
  ghost predicate Walkable(t: Tree, p: Path) {
    forall n :: 0 <= n < |p| && Resolve(t, p[..n]).Some? ==>
      Resolve(t, p[..n]).value in t && t[Resolve(t, p[..n]).value].Dir?
  }

  predicate Marked(live: seq<nat>, t: Tree) {
    |live| == INODES && forall i :: 0 <= i < INODES ==> (live[i] != 0 <==> i in t)
  }

  predicate HasFree(t: Tree) { exists j :: 0 <= j < INODES && j !in t }

  /** Where head is after creating a node in directory d, and after unlinking one. */
  function CreateEnd(t: Tree, d: nat, head: nat): nat
    requires d in t
  {
    head + 2 * HDR + Size(t[d]) + DENT
  }

  function UnlinkEnd(t: Tree, d: nat, head: nat): int
    requires d in t
  {
    head + HDR + Size(t[d]) - DENT
  }

  lemma MarkedCreate(live: seq<nat>, t: Tree, d: nat, name: string, i: nat, body: Body, a: nat)
    requires Marked(live, t) && d in t && t[d].Dir? && i < INODES && a != 0
    ensures Marked(live[i := a], Created(t, d, name, i, body))
  {
  }

  lemma MarkedUnlink(live: seq<nat>, t: Tree, d: nat, name: string, i: nat)
    requires Marked(live, t) && d in t && t[d].Dir? && i < INODES
    ensures Marked(live[i := 0], Unlinked(t, d, name, i))
  {
  }

  class Disk {
    const total: nat
    var entries: map<nat, Entry>
    var head: nat
    var live: seq<nat>
    ghost var log: seq<Entry>

    ghost predicate Valid()
      reads this
    {
      && Tiled(entries, head, log) && EntriesOk(log) && head <= total
      && |live| == INODES && forall i :: 0 <= i < INODES && live[i] != 0 ==> HasEntry(log, i)
    }

    ghost function Tree(): Tree
      reads this
    {
      Replay(log)
    }

    /** all_le[i] is nonzero exactly when inode i is live. */
    ghost predicate Marks()
      reads this
    {
      Marked(live, Tree())
    }

    /** a is the address of the last entry, number k, of the live inode i. */
    ghost predicate Shows(a: nat, k: nat, i: nat)
      reads this
    {
      && IsLast(log, k, i) && a == Addr(log, k) && a in entries && entries[a] == log[k]
      && !log[k].deleted && i in Tree() && Tree()[i] == log[k].body && i < INODES
    }

    /** mkfs and mount: an empty root directory, in a file of at least its size. */
    constructor (size: nat)
      ensures Valid() && TreeOk(Tree()) && Tree() == map[0 := Dir([])] && head == SB + HDR
      ensures total == if size < SB + HDR then SB + HDR else size
    {
      total := if size < SB + HDR then SB + HDR else size;
      var root := Entry(0, false, Dir([]));
      entries, head, log := map[SB := root], SB + HDR, [root];
      live := seq(INODES, _ => 0);
      new;
      assert log[..0] == [];
      assert Replay(log) == map[0 := Dir([])];
      assert Addr(log, 0) == SB && Addr(log, 1) == SB + HDR;
      assert forall d, k :: !Link(Tree(), d, k);
    }

    /** get_number_inode: one scan of the log, which also rebuilds all_le. */
    method GetNumber(i: nat) returns (a: nat, ghost k: nat)
      requires Valid() && HasEntry(log, i)
      modifies this`live
      ensures Valid() && Marks()
      ensures a == 0 <==> i !in Tree()
      ensures a != 0 ==> Shows(a, k, i)
    {
      var lookup := SB;
      ghost var n := 0;
      a, k := 0, 0;
      while lookup < head
        invariant n <= |log| && lookup == Addr(log, n) && live == Table(old(live), log, n)
        invariant a == 0 ==> forall j :: 0 <= j < n ==> log[j].ino != i
        invariant a != 0 ==> k < n && a == Addr(log, k) && log[k].ino == i && forall j :: k < j < n ==> log[j].ino != i
        decreases |log| - n
      {
        assert n < |log|;
        assert Has(log, n) && On(entries, log, n);
        var e := entries[lookup];
        live := live[e.ino := if e.deleted then 0 else lookup];
        if e.ino == i {
          a, k := lookup, n;
        }
        lookup := lookup + HDR + Size(e.body);
        n := n + 1;
      }
      if n < |log| {
        AddrMono(log, n, |log|);
      }
      assert n == |log| && a != 0;
      Scanned(old(live));
      assert Has(log, k) && On(entries, log, k);
      ReplayLast(log, k, i);
      if entries[a].deleted {
        a := 0;
      }
    }

    /** A full scan leaves all_le marking the live inodes. */
    lemma Scanned(table: seq<nat>)
      requires |table| == INODES && EntriesOk(log) && live == Table(table, log, |log|)
      requires forall i :: 0 <= i < INODES && table[i] != 0 ==> HasEntry(log, i)
      ensures Marks() && forall i :: 0 <= i < INODES && live[i] != 0 ==> HasEntry(log, i)
    {
      assert log[..|log|] == log;
      forall i | 0 <= i < INODES
        ensures live[i] != 0 <==> i in Tree()
        ensures live[i] != 0 ==> HasEntry(log, i)
      {
        TableLive(table, log, |log|, i);
        if !HasEntry(log, i) {
          ReplayNone(log, i);
        }
      }
    }

    /** get_path_inode. */
    method GetPath(p: Path) returns (a: nat, ghost k: nat)
      requires Valid() && TreeOk(Tree()) && Walkable(Tree(), p)
      modifies this`live
      ensures Valid() && Marks()
      ensures a == 0 <==> Resolve(Tree(), p).None?
      ensures a != 0 ==> Shows(a, k, Resolve(Tree(), p).value)
    {
      LiveHas(log, 0);
      a, k := GetNumber(0);
      for n := 0 to |p|
        invariant Valid() && Marks() && a != 0 && Resolve(Tree(), p[..n]).Some? &&
                  Shows(a, k, Resolve(Tree(), p[..n]).value)
      {
        assert p[..n + 1][..n] == p[..n];
        ghost var d := Resolve(Tree(), p[..n]).value;
        var j := FindDent(entries[a].body.dents, p[n]);
        if j.None? {
          Broken(Tree(), p, n + 1);
          a := 0;
          return;
        }
        assert Link(Tree(), d, j.value) && LinkOf(Tree(), d, j.value) == entries[a].body.dents[j.value];
        var i := entries[a].body.dents[j.value].ino;
        LiveHas(log, i);
        a, k := GetNumber(i);
      }
      assert p[..|p|] == p;
    }

    /** Writes an entry at head and moves head past it. */
    method Append(e: Entry)
      requires Valid() && e.ino < INODES && ShortNames(e.body) && head + Span(e) <= total
      modifies this`entries, this`head, this`log
      ensures Valid() && log == old(log) + [e] && head == old(head) + Span(e)
      ensures Tree() == if e.deleted then old(Tree()) - {e.ino} else old(Tree())[e.ino := e.body]
    {
      TiledSnoc(entries, head, log, e);
      ReplaySnoc(log, e);
      entries := entries[head := e];
      head := head + HDR + Size(e.body);
      log := log + [e];
      forall i | 0 <= i < INODES && live[i] != 0
        ensures HasEntry(log, i)
      {
        var k :| 0 <= k < |old(log)| && old(log)[k].ino == i;
        assert log[k].ino == i;
      }
    }

    /** The loop over all_le: the least free inode number, or INODES. */
    method FirstFree() returns (i: nat)
      requires |live| == INODES && Marks()
      ensures i <= INODES && (i < INODES ==> i !in Tree()) && forall j :: 0 <= j < i ==> j in Tree()
      ensures i < INODES <==> HasFree(Tree())
    {
      i := 0;
      while i < INODES && live[i] != 0
        invariant i <= INODES && forall j :: 0 <= j < i ==> live[j] != 0
      {
        i := i + 1;
      }
    }

    /** wfs_mknod and wfs_mkdir on the path p + [name]. */
    method Create(p: Path, name: string, dir: bool) returns (r: Status, ghost d: nat, ghost i: nat)
      requires Valid() && TreeOk(Tree()) && Walkable(Tree(), p + [name])
      modifies this
      ensures r == NoEntry <==> !LeadsToDir(old(Tree()), p)
      ensures r != NoEntry ==> Resolve(old(Tree()), p) == Some(d) && d in old(Tree())
      ensures r == NoSpace <==> r != NoEntry && old(head) + HDR > total
      ensures r == Outside <==> r != NoEntry && old(head) + HDR <= total < CreateEnd(old(Tree()), d, old(head))
      ensures r == NoNumber <==> r != NoEntry && CreateEnd(old(Tree()), d, old(head)) <= total && !HasFree(old(Tree()))
      ensures r == Ok <==> r != NoEntry && CreateEnd(old(Tree()), d, old(head)) <= total && HasFree(old(Tree()))
      ensures r == NoEntry || r == NoSpace ==> Valid() && Marks() && log == old(log) && head == old(head)
      ensures r == Ok ==> Valid() && Marks() && head == CreateEnd(old(Tree()), d, old(head))
      ensures r == Ok ==> i !in old(Tree()) && forall j :: 0 <= j < i ==> j in old(Tree())
      ensures r == Ok ==> Tree() == Created(old(Tree()), d, Truncated(name), i, Blanks(dir))
      ensures r == Ok ==> (TreeOk(Tree()) <==> NodeAt(old(Tree()), p + [Kept(name)]).None?)
      ensures r == Ok && NodeAt(old(Tree()), p + [Kept(name)]).None? ==>
                forall q :: NodeAt(Tree(), q) ==
                  if q == p + [Kept(name)] then Some(if dir then Folder else Bytes([])) else NodeAt(old(Tree()), q)
    {
      ghost var t := Tree();
      d, i := 0, 0;
      var existing, k0 := GetPath(p + [name]);
      assert existing == 0 || !entries[existing].deleted;
      ParentWalkable(t, p, name);
      var a, k := GetPath(p);
      if a == 0 || !entries[a].body.Dir? {
        return NoEntry, 0, 0;
      }
      d := Resolve(t, p).value;
      if head + HDR > total {
        return NoSpace, d, 0;
      }
      if head + HDR + Size(entries[a].body) + DENT + HDR > total {
        return Outside, d, 0;
      }
      var n := FirstFree();
      if n == INODES {
        return NoNumber, d, 0;
      }
      i := n;
      AddNode(a, d, k, Truncated(name), n, Blanks(dir));
      CreateEffect(t, p, d, name, i, dir);
      r := Ok;
    }

    /** The new directory entry, then the new node. */
    method AddNode(a: nat, ghost d: nat, ghost k: nat, name: string, i: nat, body: Body)
      requires Valid() && Marks() && Shows(a, k, d) && entries[a].body.Dir? && |name| < NAMELEN && Blank(body)
      requires i < INODES && i !in Tree() && CreateEnd(Tree(), d, head) <= total
      modifies this
      ensures Valid() && Marks() && Tree() == Created(old(Tree()), d, name, i, body)
      ensures head == CreateEnd(old(Tree()), d, old(head))
    {
      Append(Entry(entries[a].ino, false, Dir(entries[a].body.dents + [Dent(name, i)])));
      var node := head;
      Append(Entry(i, false, body));
      MarkedCreate(live, old(Tree()), d, name, i, body, node);
      live := live[i := node];
      assert log[|log| - 1].ino == i;
    }

    /** wfs_write. The header is copied to head before the space is checked. */
    method Write(p: Path, buf: seq<Byte>, off: nat) returns (r: Status, ghost c: seq<Byte>)
      requires Valid() && TreeOk(Tree()) && Walkable(Tree(), p)
      modifies this
      ensures r == NoEntry <==> Resolve(old(Tree()), p).None?
      ensures r == NotAFile <==> LeadsToDir(old(Tree()), p)
      ensures r != NoEntry && r != NotAFile ==> FileAt(old(Tree()), p) == Some(c)
      ensures r == NoEntry || r == NotAFile || (r == TooFar <==> off > |c|)
      ensures r == NoEntry || r == NotAFile || (r == Outside <==> off <= |c| && old(head) + HDR > total)
      ensures r == NoEntry || r == NotAFile
              || (r == NoSpace <==> off <= |c| && old(head) + HDR <= total < old(head) + HDR + |c| + |buf|)
      ensures r == NoEntry || r == NotAFile || (r == Ok <==> off <= |c| && old(head) + HDR + |c| + |buf| <= total)
      ensures r != Outside ==> Valid() && Marks() && TreeOk(Tree())
      ensures r != Outside && r != Ok ==> log == old(log) && head == old(head)
      ensures r == Ok ==> Tree() == Written(old(Tree()), p, Overlay(c, off, buf))
      ensures r == Ok ==>
                forall q :: NodeAt(Tree(), q) ==
                  if q == p then Some(Bytes(Overlay(c, off, buf))) else NodeAt(old(Tree()), q)
      ensures r == Ok ==> head == old(head) + HDR + |Overlay(c, off, buf)|
    {
      ghost var t := Tree();
      c := [];
      var a, k := GetPath(p);
      if a == 0 {
        return NoEntry, c;
      }
      if entries[a].body.Dir? {
        return NotAFile, c;
      }
      c := entries[a].body.bytes;
      var bytes := entries[a].body.bytes;
      if off > |bytes| {
        return TooFar, c;
      }
      if head + HDR > total {
        return Outside, c;
      }
      if head + HDR + |bytes| + |buf| > total {
        return NoSpace, c;
      }
      WriteOk(t, Resolve(t, p).value, Overlay(bytes, off, buf));
      WriteAll(t, p, Overlay(bytes, off, buf));
      Append(Entry(entries[a].ino, false, File(Overlay(bytes, off, buf))));
      r := Ok;
    }

    method Read(p: Path, size: nat, off: nat) returns (r: Status, buf: seq<Byte>)
      requires Valid() && TreeOk(Tree()) && Walkable(Tree(), p)
      modifies this`live
      ensures Valid() && Marks()
      ensures r == NoEntry <==> Resolve(Tree(), p).None?
      ensures r == NotAFile <==> LeadsToDir(Tree(), p)
      ensures r == Ok <==> FileAt(Tree(), p).Some?
      ensures r == Ok ==> buf == Window(FileAt(Tree(), p).value, off, size)
    {
      buf := [];
      var a, k := GetPath(p);
      if a == 0 {
        return NoEntry, [];
      }
      if entries[a].body.Dir? {
        return NotAFile, [];
      }
      var bytes := entries[a].body.bytes;
      r := Ok;
      if off >= |bytes| {
        return;
      }
      var actual := if off + size > |bytes| then |bytes| - off else size;
      buf := bytes[off..off + actual];
    }

    /** wfs_unlink of the path p + [name]. */
    method Unlink(p: Path, name: string) returns (r: Status, ghost d: nat, ghost i: nat)
      requires Valid() && TreeOk(Tree()) && Walkable(Tree(), p + [name])
      modifies this
      ensures r == NoEntry <==> Resolve(old(Tree()), p + [name]).None?
      ensures r != NoEntry ==> Resolve(old(Tree()), p) == Some(d) && d in old(Tree()) && old(Tree())[d].Dir?
      ensures r != NoEntry ==> Resolve(old(Tree()), p + [name]) == Some(i) == Child(old(Tree()), d, name)
      ensures r == Outside <==> r != NoEntry && UnlinkEnd(old(Tree()), d, old(head)) > total
      ensures r == Ok <==> r != NoEntry && UnlinkEnd(old(Tree()), d, old(head)) <= total
      ensures r != Outside ==> Valid() && Marks() && TreeOk(Tree())
      ensures r == NoEntry ==> log == old(log) && head == old(head)
      ensures r == Ok ==> head == UnlinkEnd(old(Tree()), d, old(head))
      ensures r == Ok ==> Tree() == Unlinked(old(Tree()), d, name, i)
      ensures r == Ok ==>
                forall q :: NodeAt(Tree(), q) == if p + [name] <= q then None else NodeAt(old(Tree()), q)
    {
      d, i := 0, 0;
      ghost var t := Tree();
      var file, kf := GetPath(p + [name]);
      if file == 0 {
        return NoEntry, 0, 0;
      }
      assert (p + [name])[..|p|] == p;
      ParentWalkable(t, p, name);
      var a, kd := GetPath(p);
      d, i := Resolve(t, p).value, Resolve(t, p + [name]).value;
      NotItself(t, p, name);
      UnlinkOk(t, p, d, name);
      UnlinkAll(t, p, name);
      var dents := Without(entries[a].body.dents, name);
      RemovedShort(t, d, name);
      if head + HDR + Size(Dir(dents)) > total {
        return Outside, d, i;
      }
      Append(Entry(entries[a].ino, false, Dir(dents)));
      AddrSame(old(log), log, kf);
      Mark(file, kf, i);
      MarkedUnlink(live, t, d, name, i);
      live := live[entries[file].ino := 0];
      r := Ok;
    }

    /** file_entry->inode.deleted = 1, on the last entry of inode i. */
    method Mark(a: nat, ghost k: nat, ghost i: nat)
      requires Valid() && IsLast(log, k, i) && a == Addr(log, k)
      modifies this`entries, this`log
      ensures Valid() && Tree() == old(Tree()) - {i} && a in entries && entries[a].ino == i && |log| == |old(log)|
    {
      assert Has(log, k) && On(entries, log, k);
      TiledMark(entries, head, log, k);
      ReplayMark(log, k, i);
      entries := entries[a := entries[a].(deleted := true)];
      log := log[k := log[k].(deleted := true)];
      forall j | 0 <= j < INODES && live[j] != 0
        ensures HasEntry(log, j)
      {
        var l :| 0 <= l < |old(log)| && old(log)[l].ino == j;
        assert log[l].ino == j;
      }
    }
  }

  /** An entry cannot be its own directory. */
  lemma NotItself(t: Tree, p: Path, name: string)
    requires TreeOk(t) && Resolve(t, p + [name]).Some?
    ensures Resolve(t, p).Some? && Resolve(t, p) != Resolve(t, p + [name])
    ensures Child(t, Resolve(t, p).value, name) == Resolve(t, p + [name])
  {
    assert (p + [name])[..|p|] == p;
    if Resolve(t, p) == Resolve(t, p + [name]) {
      PathsUnique(t, p, p + [name]);
    }
  }

  lemma RemovedShort(t: Tree, d: nat, name: string)
    requires TreeOk(t) && Child(t, d, name).Some? && ShortNames(t[d])
    ensures ShortNames(Dir(Removed(t[d].dents, name))) && |Removed(t[d].dents, name)| == |t[d].dents| - 1
  {
    var k := OnlyName(t, d, name);
  }

  /** What a path leads to. */
  datatype Node = Folder | Bytes(bytes: seq<Byte>)

  function NodeAt(t: Tree, p: Path): Option<Node> {
    if Resolve(t, p).Some? && Resolve(t, p).value in t then
      (match t[Resolve(t, p).value] case Dir(_) => Some(Folder) case File(bytes) => Some(Bytes(bytes)))
    else None
  }

  /** The name an entry is kept under: 31 characters at most. */
  function Kept(name: string): string {
    if |name| <= 31 then name else name[..31]
  }

  lemma NewName(t: Tree, p: Path, d: nat, name: string)
    requires TreeOk(t) && Resolve(t, p) == Some(d) && d in t && t[d].Dir?
    ensures Find(t[d].dents, name) == None <==> NodeAt(t, p + [name]).None?
  {
    assert (p + [name])[..|p|] == p;
    if Find(t[d].dents, name).Some? {
      assert Link(t, d, Find(t[d].dents, name).value);
    }
  }

  /** An empty directory or file. */
  function Blanks(dir: bool): Body { if dir then Dir([]) else File([]) }

  /** The file p leads to gets the contents bytes. */
  function Written(t: Tree, p: Path, bytes: seq<Byte>): Tree
    requires FileAt(t, p).Some?
  {
    t[Resolve(t, p).value := File(bytes)]
  }

  predicate LeadsToDir(t: Tree, p: Path) {
    Resolve(t, p).Some? && Resolve(t, p).value in t && t[Resolve(t, p).value].Dir?
  }

  /** The bytes of the file that p leads to. */
  function FileAt(t: Tree, p: Path): Option<seq<Byte>> {
    if Resolve(t, p).Some? && Resolve(t, p).value in t && t[Resolve(t, p).value].File?
    then Some(t[Resolve(t, p).value].bytes) else None
  }

  /** At most size bytes from off on. */
  function Window(c: seq<Byte>, off: nat, size: nat): seq<Byte> {
    if off >= |c| then [] else if off + size > |c| then c[off..] else c[off..off + size]
  }

  lemma ParentWalkable(t: Tree, p: Path, name: string)
    requires Walkable(t, p + [name])
    ensures Walkable(t, p)
  {
    assert forall n :: 0 <= n <= |p| ==> (p + [name])[..n] == p[..n];
  }

  lemma RemovedFrom(ds: seq<Dent>, n: nat, name: string)
    requires n < |ds|
    ensures Removed(ds[n..], name) == (if ds[n].name == name then [] else [ds[n]]) + Removed(ds[n + 1..], name)
  {
    assert ds[n..][1..] == ds[n + 1..];
  }

  /** wfs_unlink's copy of the directory. */
  /** One turn of the copying loop. */
  lemma KeepTurn(ds: seq<Dent>, n: nat, name: string, r: seq<Dent>)
    requires n < |ds|
    ensures r + Removed(ds[n..], name) ==
            (if ds[n].name != name then r + [ds[n]] else r) + Removed(ds[n + 1..], name)
  {
    RemovedFrom(ds, n, name);
    var rest := Removed(ds[n + 1..], name);
    assert r + ([ds[n]] + rest) == r + [ds[n]] + rest;
  }

  method Without(ds: seq<Dent>, name: string) returns (r: seq<Dent>)
    ensures r == Removed(ds, name)
  {
    r := [];
    var n := 0;
    while n < |ds|
      invariant n <= |ds| && Removed(ds, name) == r + Removed(ds[n..], name)
    {
      KeepTurn(ds, n, name, r);
      if ds[n].name != name {
        r := r + [ds[n]];
      }
      n := n + 1;
    }
  }

  lemma LiveHas(log: seq<Entry>, i: nat)
    requires i in Replay(log)
    ensures HasEntry(log, i)
  {
    if !HasEntry(log, i) {
      ReplayNone(log, i);
    }
  }

  /** A path with a prefix that leads nowhere leads nowhere. */
  lemma {:induction false} Broken(t: Tree, p: Path, n: nat)
    requires n <= |p| && Resolve(t, p[..n]).None?
    ensures Resolve(t, p).None?
    decreases |p|
  {
    if n < |p| {
      var q := p[..|p| - 1];
      assert q[..n] == p[..n];
      Broken(t, q, n);
    } else {
      assert p[..n] == p;
    }
  }

  /** The inner loop of get_path_inode. */
  method FindDent(ds: seq<Dent>, name: string) returns (r: Option<nat>)
    ensures r == Find(ds, name)
  {
    var n := 0;
    while n < |ds|
      invariant n <= |ds| && Find(ds, name) == (match Find(ds[n..], name) case None => None case Some(k) => Some(n + k))
    {
      if ds[n].name == name {
        return Some(n);
      }
      assert ds[n..][1..] == ds[n + 1..];
      n := n + 1;
    }
    return None;
  }

  // ---------- what every other path sees ----------

  lemma CreateFiles(t: Tree, p: Path, d: nat, name: string, i: nat, body: Body, q: Path)
    requires TreeOk(t) && Resolve(t, p) == Some(d) && d in t && t[d].Dir? && Find(t[d].dents, name) == None &&
             i !in t && Blank(body)
    ensures NodeAt(Created(t, d, name, i, body), q) ==
            if q == p + [name] then Some(if body.Dir? then Folder else Bytes([])) else NodeAt(t, q)
  {
    CreatePaths(t, p, d, name, i, body, q);
    if Resolve(t, q).Some? {
      Live(t, q);
    }
  }

  lemma WriteFiles(t: Tree, p: Path, bytes: seq<Byte>, q: Path)
    requires TreeOk(t) && FileAt(t, p).Some?
    ensures NodeAt(Written(t, p, bytes), q) == if q == p then Some(Bytes(bytes)) else NodeAt(t, q)
  {
    WritePaths(t, Resolve(t, p).value, bytes, q);
    if Resolve(t, q) == Resolve(t, p) {
      PathsUnique(t, p, q);
    }
  }

  lemma UnlinkFiles(t: Tree, p: Path, name: string, q: Path)
    requires TreeOk(t) && Resolve(t, p + [name]).Some?
    ensures LeadsToDir(t, p)
    ensures NodeAt(Unlinked(t, Resolve(t, p).value, name, Resolve(t, p + [name]).value), q) ==
            if p + [name] <= q then None else NodeAt(t, q)
  {
    NotItself(t, p, name);
    var d, full := Resolve(t, p).value, p + [name];
    UnlinkPaths(t, p, d, name, q);
    if !(full <= q) && Resolve(t, q) == Resolve(t, full) {
      PathsUnique(t, full, q);
      assert false;
    }
  }

  lemma CreateEffect(t: Tree, p: Path, d: nat, name: string, i: nat, dir: bool)
    requires TreeOk(t) && Resolve(t, p) == Some(d) && d in t && t[d].Dir? && i !in t
    ensures var t' := Created(t, d, Truncated(name), i, Blanks(dir));
            && (TreeOk(t') <==> NodeAt(t, p + [Kept(name)]).None?)
            && (NodeAt(t, p + [Kept(name)]).None? ==>
                  forall q :: NodeAt(t', q) ==
                    if q == p + [Kept(name)] then Some(if dir then Folder else Bytes([])) else NodeAt(t, q))
  {
    CreateOkExactly(t, d, Truncated(name), i, Blanks(dir));
    NewName(t, p, d, Truncated(name));
    if Find(t[d].dents, Truncated(name)) == None {
      CreateAll(t, p, d, Truncated(name), i, Blanks(dir));
    }
  }

  lemma CreateAll(t: Tree, p: Path, d: nat, name: string, i: nat, body: Body)
    requires TreeOk(t) && Resolve(t, p) == Some(d) && d in t && t[d].Dir? && Find(t[d].dents, name) == None &&
             i !in t && Blank(body)
    ensures forall q :: NodeAt(Created(t, d, name, i, body), q) ==
              if q == p + [name] then Some(if body.Dir? then Folder else Bytes([])) else NodeAt(t, q)
  {
    forall q
      ensures NodeAt(Created(t, d, name, i, body), q) ==
              if q == p + [name] then Some(if body.Dir? then Folder else Bytes([])) else NodeAt(t, q)
    {
      CreateFiles(t, p, d, name, i, body, q);
    }
  }

  lemma WriteAll(t: Tree, p: Path, bytes: seq<Byte>)
    requires TreeOk(t) && FileAt(t, p).Some?
    ensures forall q :: NodeAt(Written(t, p, bytes), q) == if q == p then Some(Bytes(bytes)) else NodeAt(t, q)
  {
    forall q
      ensures NodeAt(Written(t, p, bytes), q) == if q == p then Some(Bytes(bytes)) else NodeAt(t, q)
    {
      WriteFiles(t, p, bytes, q);
    }
  }

  lemma UnlinkAll(t: Tree, p: Path, name: string)
    requires TreeOk(t) && Resolve(t, p + [name]).Some?
    ensures LeadsToDir(t, p)
    ensures forall q :: NodeAt(Unlinked(t, Resolve(t, p).value, name, Resolve(t, p + [name]).value), q) ==
              if p + [name] <= q then None else NodeAt(t, q)
  {
    UnlinkFiles(t, p, name, []);
    forall q
      ensures NodeAt(Unlinked(t, Resolve(t, p).value, name, Resolve(t, p + [name]).value), q) ==
              if p + [name] <= q then None else NodeAt(t, q)
    {
      UnlinkFiles(t, p, name, q);
    }
  }

  // ---------- the space checks are too weak ----------

  /** wfs_mknod passes its own check on an empty disk with room for one header, and stores past the end. */
  method CreateOverruns() returns (r: Status)
    ensures r == Outside
  {
    var disk := new Disk(SB + HDR + HDR);
    ghost var d, i;
    r, d, i := disk.Create([], "a", false);
  }

  /** A file that just fits can be created, and then not be unlinked within the disk. */
  method UnlinkOverruns() returns (made: Status, r: Status)
    ensures made == Ok && r == Outside
  {
    var disk := new Disk(SB + HDR + 2 * HDR + DENT);
    ghost var d, i;
    ghost var t := disk.Tree();
    assert 1 !in t;
    assert Resolve(t, []) == Some(0);
    made, d, i := disk.Create([], "a", false);
    CreatePaths(t, [], 0, "a", i, File([]), ["a"]);
    r, d, i := disk.Unlink([], "a");
  }
}
