/** The log of the file system of CS_537_P7, as a value: where its entries lie and what they replay to. */
module WfsLog {
  import opened WfsTree

  const SB: nat := 8
  const HDR: nat := 44
  const DENT: nat := 40
  const INODES: nat := 256
  const NAMELEN: nat := 32

  /** A log entry: inode header and data. */
  datatype Entry = Entry(ino: nat, deleted: bool, body: Body)

  /** inode.size */
  function Size(b: Body): nat {
    match b
    case Dir(ds) => DENT * |ds|
    case File(bytes) => |bytes|
  }

  function Span(e: Entry): nat { HDR + Size(e.body) }

  /** The address of entry k: entries follow one another from the superblock on. */
  function Addr(log: seq<Entry>, k: nat): (a: nat)
    requires k <= |log|
    ensures a >= SB
  {
    if k == 0 then SB else Addr(log, k - 1) + Span(log[k - 1])
  }

  predicate Has(log: seq<Entry>, k: nat) { k < |log| }

  predicate On(disk: map<nat, Entry>, log: seq<Entry>, k: nat)
    requires k < |log|
  {
    Addr(log, k) in disk && disk[Addr(log, k)] == log[k]
  }

  /** The entries tile the disk from the superblock to head. */
  ghost predicate Tiled(disk: map<nat, Entry>, head: nat, log: seq<Entry>) {
    head == Addr(log, |log|) && forall k {:trigger Has(log, k)} :: Has(log, k) ==> On(disk, log, k)
  }

  lemma {:induction false} AddrMono(log: seq<Entry>, j: nat, k: nat)
    requires j <= k <= |log|
    ensures Addr(log, j) + HDR * (k - j) <= Addr(log, k)
    decreases k - j
  {
    if j < k {
      AddrMono(log, j, k - 1);
    }
  }

  lemma {:induction false} AddrSame(log: seq<Entry>, log': seq<Entry>, k: nat)
    requires k <= |log| && k <= |log'| && forall j :: 0 <= j < k ==> Span(log[j]) == Span(log'[j])
    ensures Addr(log, k) == Addr(log', k)
  {
    if k > 0 {
      AddrSame(log, log', k - 1);
    }
  }

  /** Entries do not share an address. */
  lemma AddrApart(log: seq<Entry>, j: nat, k: nat)
    requires j <= |log| && k <= |log| && j != k
    ensures Addr(log, j) != Addr(log, k)
  {
    if j < k {
      AddrMono(log, j, k);
    } else {
      AddrMono(log, k, j);
    }
  }

  lemma HeadSnoc(log: seq<Entry>, e: Entry)
    ensures Addr(log + [e], |log| + 1) == Addr(log, |log|) + Span(e)
  {
    AddrSame(log, log + [e], |log|);
  }

  /** Writing an entry at head extends the tiling. */
  lemma TiledSnoc(disk: map<nat, Entry>, head: nat, log: seq<Entry>, e: Entry)
    requires Tiled(disk, head, log)
    ensures Tiled(disk[head := e], head + Span(e), log + [e])
  {
    HeadSnoc(log, e);
    forall k: nat {:trigger Has(log + [e], k)} | Has(log + [e], k)
      ensures On(disk[head := e], log + [e], k)
    {
      AddrSame(log, log + [e], k);
      if k < |log| {
        assert Has(log, k);
        AddrApart(log, k, |log|);
      }
    }
  }

  /** Marking an entry in place keeps the tiling. */
  lemma TiledMark(disk: map<nat, Entry>, head: nat, log: seq<Entry>, k: nat)
    requires Tiled(disk, head, log) && k < |log|
    ensures Tiled(disk[Addr(log, k) := log[k].(deleted := true)], head, log[k := log[k].(deleted := true)])
  {
    var log' := log[k := log[k].(deleted := true)];
    AddrSame(log, log', |log|);
    AddrSame(log, log', k);
    forall j: nat {:trigger Has(log', j)} | Has(log', j)
      ensures On(disk[Addr(log, k) := log[k].(deleted := true)], log', j)
    {
      AddrSame(log, log', j);
      if j != k {
        assert Has(log, j);
        AddrApart(log, j, k);
      }
    }
  }

  // ---------- replay ----------

  /** The last entry of each inode wins. */
  function Replay(log: seq<Entry>): Tree {
    if log == [] then map[]
    else
      var t, e := Replay(log[..|log| - 1]), log[|log| - 1];
      if e.deleted then t - {e.ino} else t[e.ino := e.body]
  }

  predicate HasEntry(log: seq<Entry>, i: nat) {
    exists k :: 0 <= k < |log| && log[k].ino == i
  }

  predicate IsLast(log: seq<Entry>, k: nat, i: nat) {
    k < |log| && log[k].ino == i && forall j :: k < j < |log| ==> log[j].ino != i
  }

  lemma {:induction false} ReplayNone(log: seq<Entry>, i: nat)
    requires !HasEntry(log, i)
    ensures i !in Replay(log)
    decreases |log|
  {
    if log != [] {
      var n := |log| - 1;
      assert forall k :: 0 <= k < n ==> log[..n][k] == log[k];
      ReplayNone(log[..n], i);
    }
  }

  lemma {:induction false} ReplayLast(log: seq<Entry>, k: nat, i: nat)
    requires IsLast(log, k, i)
    ensures i in Replay(log) <==> !log[k].deleted
    ensures !log[k].deleted ==> Replay(log)[i] == log[k].body
    decreases |log|
  {
    var n := |log| - 1;
    if k < n {
      ReplayLast(log[..n], k, i);
    }
  }

  lemma ReplaySnoc(log: seq<Entry>, e: Entry)
    ensures Replay(log + [e]) == if e.deleted then Replay(log) - {e.ino} else Replay(log)[e.ino := e.body]
  {
    assert (log + [e])[..|log|] == log;
  }

  /** Marking an inode's last entry deleted takes the inode, and nothing else, out of the tree. */
  lemma {:induction false} ReplayMark(log: seq<Entry>, k: nat, i: nat)
    requires IsLast(log, k, i)
    ensures Replay(log[k := log[k].(deleted := true)]) == Replay(log) - {i}
    decreases |log|
  {
    var n := |log| - 1;
    var log' := log[k := log[k].(deleted := true)];
    if k == n {
      assert log'[..n] == log[..n];
    } else {
      ReplayMark(log[..n], k, i);
      assert log'[..n] == log[..n][k := log[k].(deleted := true)];
    }
  }

  // ---------- the table of live inodes ----------

  /** all_le after the scan has read n entries. */
  function Table(table: seq<nat>, log: seq<Entry>, n: nat): (r: seq<nat>)
    requires n <= |log| && |table| == INODES && forall k :: 0 <= k < n ==> log[k].ino < INODES
    ensures |r| == INODES
  {
    if n == 0 then table
    else Table(table, log, n - 1)[log[n - 1].ino := if log[n - 1].deleted then 0 else Addr(log, n - 1)]
  }

  /** After a full scan an inode's slot is nonzero exactly when the inode is live. */
  lemma {:induction false} TableLive(table: seq<nat>, log: seq<Entry>, n: nat, i: nat)
    requires n <= |log| && |table| == INODES && (forall k :: 0 <= k < n ==> log[k].ino < INODES) && i < INODES
    requires table[i] != 0 ==> HasEntry(log[..n], i)
    ensures Table(table, log, n)[i] != 0 <==> i in Replay(log[..n])
    decreases n
  {
    if n > 0 {
      assert log[..n][..n - 1] == log[..n - 1];
      if log[n - 1].ino != i {
        if table[i] != 0 {
          var k :| 0 <= k < n && log[..n][k].ino == i;
          assert k < n - 1 && log[..n - 1][k].ino == i;
        }
        TableLive(table, log, n - 1, i);
      }
    }
  }
}
