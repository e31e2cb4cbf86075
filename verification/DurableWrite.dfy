/**
 filewrite on top of the log: a crash at any point of a write, and any number of crashes during the
 recovery that follows, leave the file with a whole number of chunks of the write.
 */
module DurableWrite {
  import opened Keys
  import opened Wrappers
  import opened Blocks
  import opened FsLayout
  import opened LogProtocol
  import LogSafety
  import Ownership
  import FileBytes
  import FileSystem
  import FileWrite

  // ---------- the file system as far as files go ----------

  /** d has the inode, bitmap and data blocks of img. */
  predicate SameFs(sb: Super, d: Disk, img: Image) {
    ImageOk(sb, d) && ImageOk(sb, img) && forall b :: sb.inodestart <= b < sb.size ==> d[b] == img[b]
  }

  lemma SameInodes(sb: Super, d: Disk, img: Image, x: nat)
    requires SameFs(sb, d, img) && x < sb.ninodes
    ensures forall k :: 0 <= k < 16 ==> Ownership.InodeWord(sb, d, x, k) == Ownership.InodeWord(sb, img, x, k)
    ensures Ownership.DiskAddrs(sb, d, x) == Ownership.DiskAddrs(sb, img, x)
  {
    Ownership.Regions(sb, d);
  }

  /** No file can tell two such disks apart. */
  lemma SameBytes(sb: Super, d: Disk, img: Image, x: nat)
    requires SameFs(sb, d, img) && x < sb.ninodes
    ensures forall i: nat :: i < SLOTS ==> FileBytes.DiskSlot(sb, d, x, i) == FileBytes.DiskSlot(sb, img, x, i)
    ensures forall k: nat :: k < FileBytes.MAXBYTES ==>
              FileBytes.FileByte(sb, d, Ownership.DiskAddrs(sb, d, x), k) ==
              FileBytes.FileByte(sb, img, Ownership.DiskAddrs(sb, img, x), k)
  {
    SameInodes(sb, d, img, x);
  }

  lemma SameFile(sb: Super, d: Disk, img: Image, x: nat)
    requires SameFs(sb, d, img) && x < sb.ninodes
    ensures FileBytes.FileOf(sb, d, x) == FileBytes.FileOf(sb, img, x)
  {
    SameInodes(sb, d, img, x);
    SameBytes(sb, d, img, x);
  }

  lemma SamePointers(sb: Super, d: Disk, img: Image)
    requires SameFs(sb, d, img) && 0 < sb.ninodes
    ensures forall x: nat, i: nat :: x < sb.ninodes && i < SLOTS ==>
              FileBytes.DiskSlot(sb, d, x, i) == FileBytes.DiskSlot(sb, img, x, i)
  {
    forall x: nat, i: nat | x < sb.ninodes && i < SLOTS
      ensures FileBytes.DiskSlot(sb, d, x, i) == FileBytes.DiskSlot(sb, img, x, i)
    {
      SameBytes(sb, d, img, x);
    }
  }

  /** Ownership, the bitmap and the mapping of every file are the same too. */
  lemma SameWhole(sb: Super, d: Disk, img: Image, owner: Ownership.Owners)
    requires SameFs(sb, d, img) && FileBytes.Whole(sb, img, owner)
    ensures FileBytes.Whole(sb, d, owner)
  {
    SameLinked(sb, d, img, owner);
    SameMarked(sb, d, img, owner);
    forall x | 0 <= x < sb.ninodes
      ensures FileBytes.Mapped(sb, d, x)
    {
      SameMapped(sb, d, img, x);
    }
  }

  lemma SameMapped(sb: Super, d: Disk, img: Image, x: nat)
    requires SameFs(sb, d, img) && x < sb.ninodes && FileBytes.Mapped(sb, img, x)
    ensures FileBytes.Mapped(sb, d, x)
  {
    SameInodes(sb, d, img, x);
    SameBytes(sb, d, img, x);
    var a := Ownership.DiskAddrs(sb, d, x);
    assert Ownership.InodeWord(sb, d, x, 2) == Ownership.InodeWord(sb, img, x, 2);
    forall bn: nat | bn < MAXFILE
      ensures FileBytes.FileBlock(sb, d, a, bn) == FileBytes.FileBlock(sb, img, a, bn)
    {
      var i := FileBytes.FileSlot(bn);
      assert FileBytes.DiskSlot(sb, d, x, i) == FileBytes.DiskSlot(sb, img, x, i);
    }
  }

  lemma SameMarked(sb: Super, d: Disk, img: Image, owner: Ownership.Owners)
    requires SameFs(sb, d, img) && Ownership.Marked(sb, img, owner, {})
    ensures Ownership.Marked(sb, d, owner, {})
  {
    Ownership.Regions(sb, d);
    assert forall b :: 0 <= b < sb.size ==> Ownership.InUse(sb, d, b) == Ownership.InUse(sb, img, b);
  }

  lemma SameLinked(sb: Super, d: Disk, img: Image, owner: Ownership.Owners)
    requires SameFs(sb, d, img) && 0 < sb.ninodes
    requires Ownership.Linked(sb, img, Ownership.Cur(0, Ownership.DiskAddrs(sb, img, 0)), owner)
    ensures Ownership.Linked(sb, d, Ownership.Cur(0, Ownership.DiskAddrs(sb, d, 0)), owner)
  {
    SamePointers(sb, d, img);
    var (c, c') := (Ownership.Cur(0, Ownership.DiskAddrs(sb, img, 0)), Ownership.Cur(0, Ownership.DiskAddrs(sb, d, 0)));
    assert forall x: nat, i: nat :: x < sb.ninodes && i < SLOTS ==>
        Ownership.Ptr(sb, img, c, x, i) == FileBytes.DiskSlot(sb, img, x, i) &&
        Ownership.Ptr(sb, d, c', x, i) == FileBytes.DiskSlot(sb, d, x, i);
  }

  lemma SameStage(sb: Super, j: FileWrite.Job, d: Disk, img: Image, done: nat)
    requires SameFs(sb, d, img) && FileWrite.Stage(sb, j, img, done)
    ensures FileWrite.Stage(sb, j, d, done)
    ensures FileBytes.Consistent(sb, j.blk) ==> FileBytes.Consistent(sb, d)
  {
    assert See(WITHIN);
    SameFile(sb, d, img, j.inum);
    SameConsistent(sb, d, img);
    SameOthers(sb, j.blk, img, d, j.inum);
    assert FileWrite.StageNow(sb, j, d, done);
  }

  lemma SameConsistent(sb: Super, d: Disk, img: Image)
    requires SameFs(sb, d, img)
    ensures FileBytes.Consistent(sb, img) ==> FileBytes.Consistent(sb, d)
  {
    if FileBytes.Consistent(sb, img) {
      var owner :| FileBytes.Whole(sb, img, owner);
      SameWhole(sb, d, img, owner);
    }
  }

  lemma SameOthers(sb: Super, blk: Image, img: Image, d: Disk, inum: nat)
    requires SameFs(sb, d, img) && FileBytes.OthersSame(sb, blk, img, inum)
    ensures FileBytes.OthersSame(sb, blk, d, inum)
  {
    forall x: nat | x < sb.ninodes && x != inum
      ensures forall k :: 0 <= k < 16 ==> Ownership.InodeWord(sb, d, x, k) == Ownership.InodeWord(sb, blk, x, k)
      ensures forall i: nat :: i < SLOTS ==> FileBytes.DiskSlot(sb, d, x, i) == FileBytes.DiskSlot(sb, blk, x, i)
      ensures forall k: nat :: k < FileBytes.MAXBYTES ==>
                FileBytes.FileByte(sb, d, Ownership.DiskAddrs(sb, d, x), k) ==
                FileBytes.FileByte(sb, blk, Ownership.DiskAddrs(sb, blk, x), k)
    {
      SameInodes(sb, d, img, x);
      SameBytes(sb, d, img, x);
    }
  }

  // ---------- the calls of a write ----------

  /** A store into a cached block. */
  datatype Put = Put(b: nat, v: Block)

  function Apply(img: Image, ws: seq<Put>): (r: Image)
    ensures |r| == |img|
  {
    if ws == [] then img else
      var (w, r) := (ws[|ws| - 1], Apply(img, ws[..|ws| - 1]));
      if w.b < |img| then r[w.b := w.v] else r
  }

  /** The stores of transaction k turn image k into image k + 1, and are to blocks it logs. */
  predicate Makes(images: seq<Image>, txs: seq<set<nat>>, writes: seq<seq<Put>>) {
    |images| == |txs| + 1 == |writes| + 1 &&
    forall k :: 0 <= k < |txs| ==>
      Apply(images[k], writes[k]) == images[k + 1] && forall w <- writes[k] :: w.b in txs[k]
  }

  /** Whatever a transaction changed, it can have stored block by block. */
  lemma {:induction false} SomeWrites(img: Image, img': Image, tx: set<nat>) returns (ws: seq<Put>)
    requires FileSystem.Journaled(img, img', tx)
    ensures Apply(img, ws) == img' && forall w <- ws :: w.b in tx
    decreases tx
  {
    if tx == {} {
      ws := [];
    } else {
      var b :| b in tx;
      if b < |img| {
        var mid := img'[b := img[b]];
        var us := SomeWrites(img, mid, tx - {b});
        ws := us + [Put(b, img'[b])];
        assert ws[..|ws| - 1] == us;
        assert mid[b := img'[b]] == img';
      } else {
        ws := SomeWrites(img, img', tx - {b});
      }
    }
  }

  /** So the disks that filewrite passes through are made by some stores to the blocks it logs. */
  lemma {:induction false} SomeStores(sb: Super, j: FileWrite.Job, images: seq<Image>, txs: seq<set<nat>>, n: nat)
    returns (writes: seq<seq<Put>>)
    requires FileWrite.Steps(sb, j, images, txs) && n <= |txs|
    ensures Makes(images[..n + 1], txs[..n], writes)
  {
    writes := [];
    if n > 0 {
      assert See(n);
      var us := SomeStores(sb, j, images, txs, n - 1);
      var ws := SomeWrites(images[n - 1], images[n], txs[n - 1]);
      writes := us + [ws];
    }
  }

  function Stores(op: nat, ws: seq<Put>): seq<Label> {
    if ws == [] then [] else
      Stores(op, ws[..|ws| - 1]) + [Modify(op, ws[|ws| - 1].b, ws[|ws| - 1].v)]
  }

  /** begin_op, stores, end_op, for each of the first n transactions. */
  function Script(writes: seq<seq<Put>>, n: nat): seq<Label>
    requires n <= |writes|
  {
    if n == 0 then [] else Script(writes, n - 1) + ([Begin] + Stores(n - 1, writes[n - 1]) + [End(n - 1)])
  }

  predicate IsCall(e: Label) {
    e.Begin? || e.Modify? || e.End?
  }

  /** What a run does on behalf of operations, apart from locking and logging. */
  function Calls(es: seq<Label>): seq<Label> {
    if es == [] then [] else
      Calls(es[..|es| - 1]) + if IsCall(es[|es| - 1]) then [es[|es| - 1]] else []
  }

  // ---------- what the atomic store makes of them ----------

  lemma SpecSnoc(a: Spec, es: seq<Label>, e: Label)
    ensures SpecRun(a, es + [e]).Some? <==> SpecRun(a, es).Some? && SpecEnabled(SpecRun(a, es).value, e)
    ensures SpecRun(a, es + [e]).Some? ==> SpecRun(a, es + [e]).value == SpecNext(SpecRun(a, es).value, e)
  {
    assert (es + [e])[..|es|] == es;
  }

  /** Without crashes, the calls alone decide what is pending. */
  lemma {:induction false} CallsDecide(a: Spec, es: seq<Label>)
    requires SpecRun(a, es).Some? && Crash !in es
    ensures SpecRun(a, Calls(es)).Some?
    ensures var (c, d) := (SpecRun(a, es).value, SpecRun(a, Calls(es)).value);
            c.pending == d.pending && c.open == d.open
  {
    if es != [] {
      var m := |es| - 1;
      CallsDecide(a, es[..m]);
      if IsCall(es[m]) {
        SpecSnoc(a, Calls(es[..m]), es[m]);
      } else {
        assert Calls(es) == Calls(es[..m]);
      }
    }
  }

  lemma {:induction false} SpecPrefix(a: Spec, es: seq<Label>, n: nat)
    requires SpecRun(a, es).Some? && n <= |es|
    ensures SpecRun(a, es[..n]).Some?
  {
    if n < |es| {
      SpecPrefix(a, es[..|es| - 1], n);
      assert es[..|es| - 1][..n] == es[..n];
    } else {
      assert es[..n] == es;
    }
  }

  /** Inside a transaction: one operation open, and the first i stores made. */
  predicate Storing(sb: Super, a: Spec, img: Image, ws: seq<Put>, i: nat) {
    i <= |ws| && a.open == 1 && SameFs(sb, a.pending, Apply(img, ws[..i]))
  }

  predicate Between(sb: Super, a: Spec, img: Image) {
    a.open == 0 && SameFs(sb, a.pending, img)
  }

  lemma {:induction false} StoresRun(sb: Super, a: Spec, es: seq<Label>, op: nat, img: Image, ws: seq<Put>, i: nat)
    requires SpecRun(a, es).Some? && Storing(sb, SpecRun(a, es).value, img, ws, 0)
    requires i <= |ws| && SpecRun(a, es + Stores(op, ws[..i])).Some?
    ensures Storing(sb, SpecRun(a, es + Stores(op, ws[..i])).value, img, ws, i)
  {
    if i == 0 {
      assert es + Stores(op, ws[..0]) == es;
    } else {
      var fs, e := es + Stores(op, ws[..i - 1]), Modify(op, ws[i - 1].b, ws[i - 1].v);
      StoresNext(es, op, ws, i);
      SpecSnoc(a, fs, e);
      StoresRun(sb, a, es, op, img, ws, i - 1);
      StoreOne(sb, SpecRun(a, fs).value, op, img, ws, i);
    }
  }

  lemma StoresNext(es: seq<Label>, op: nat, ws: seq<Put>, i: nat)
    requires 0 < i <= |ws|
    ensures es + Stores(op, ws[..i]) == es + Stores(op, ws[..i - 1]) + [Modify(op, ws[i - 1].b, ws[i - 1].v)]
  {
    assert ws[..i][..i - 1] == ws[..i - 1];
  }

  lemma StoreOne(sb: Super, a: Spec, op: nat, img: Image, ws: seq<Put>, i: nat)
    requires 0 < i <= |ws| && Storing(sb, a, img, ws, i - 1) && SpecEnabled(a, Modify(op, ws[i - 1].b, ws[i - 1].v))
    ensures Storing(sb, SpecNext(a, Modify(op, ws[i - 1].b, ws[i - 1].v)), img, ws, i)
  {
    assert ws[..i][..i - 1] == ws[..i - 1];
  }

  lemma {:induction false} StoresTake(op: nat, ws: seq<Put>, i: nat)
    requires i <= |ws|
    ensures |Stores(op, ws)| == |ws| && Stores(op, ws)[..i] == Stores(op, ws[..i])
  {
    if i < |ws| {
      var us := ws[..|ws| - 1];
      StoresTake(op, us, i);
      assert us[..i] == ws[..i];
    } else {
      assert ws[..i] == ws;
      StoresLength(op, ws);
    }
  }

  lemma {:induction false} StoresLength(op: nat, ws: seq<Put>)
    ensures |Stores(op, ws)| == |ws|
  {
    if ws != [] {
      StoresLength(op, ws[..|ws| - 1]);
    }
  }

  /** From image to image in one transaction. */
  lemma TransactionRun(sb: Super, a: Spec, es: seq<Label>, op: nat, img: Image, ws: seq<Put>)
    requires SpecRun(a, es).Some? && Between(sb, SpecRun(a, es).value, img)
    requires SpecRun(a, es + [Begin] + Stores(op, ws) + [End(op)]).Some?
    ensures Between(sb, SpecRun(a, es + [Begin] + Stores(op, ws) + [End(op)]).value, Apply(img, ws))
  {
    SpecSnoc(a, es, Begin);
    var fs := es + [Begin] + Stores(op, ws);
    SpecSnoc(a, fs, End(op));
    assert ws[..|ws|] == ws && ws[..0] == [];
    StoresRun(sb, a, es + [Begin], op, img, ws, |ws|);
  }

  lemma ScriptNext(writes: seq<seq<Put>>, n: nat)
    requires 0 < n <= |writes|
    ensures Script(writes, n) == Script(writes, n - 1) + [Begin] + Stores(n - 1, writes[n - 1]) + [End(n - 1)]
  {
  }

  lemma {:induction false} ScriptRun(sb: Super, a: Spec, images: seq<Image>, txs: seq<set<nat>>, writes: seq<seq<Put>>,
                                     n: nat)
    requires Makes(images, txs, writes) && Between(sb, a, images[0])
    requires n <= |writes| && SpecRun(a, Script(writes, n)).Some?
    ensures Between(sb, SpecRun(a, Script(writes, n)).value, images[n])
  {
    if n > 0 {
      var es := Script(writes, n - 1);
      assert Script(writes, n)[..|es|] == es;
      SpecPrefix(a, Script(writes, n), |es|);
      ScriptRun(sb, a, images, txs, writes, n - 1);
      ScriptNext(writes, n);
      TransactionRun(sb, a, es, n - 1, images[n - 1], writes[n - 1]);
    }
  }

  lemma PrefixInto(x: seq<Label>, y: seq<Label>, z: seq<Label>, c: seq<Label>)
    requires c <= x + y + z && |x| <= |c| <= |x| + |y|
    ensures c == x + y[..|c| - |x|]
  {
    assert c == (x + y + z)[..|c|];
  }

  lemma PartIs(es: seq<Label>, op: nat, ws: seq<Put>, c: seq<Label>) returns (i: nat)
    requires c <= es + [Begin] + Stores(op, ws) + [End(op)] && |es| < |c| <= |es| + 1 + |ws|
    ensures i <= |ws| && c == es + [Begin] + Stores(op, ws[..i])
  {
    i := |c| - |es| - 1;
    StoresTake(op, ws, i);
    PrefixInto(es + [Begin], Stores(op, ws), [End(op)], c);
  }

  /** A proper, nonempty part of a transaction leaves its operation open. */
  lemma PartRun(sb: Super, a: Spec, es: seq<Label>, op: nat, img: Image, ws: seq<Put>, i: nat)
    requires SpecRun(a, es).Some? && Between(sb, SpecRun(a, es).value, img)
    requires i <= |ws| && SpecRun(a, es + [Begin] + Stores(op, ws[..i])).Some?
    ensures SpecRun(a, es + [Begin] + Stores(op, ws[..i])).value.open == 1
  {
    SpecSnoc(a, es, Begin);
    PartOpen(sb, a, es + [Begin], op, img, ws, i);
  }

  lemma PartOpen(sb: Super, a: Spec, es: seq<Label>, op: nat, img: Image, ws: seq<Put>, i: nat)
    requires SpecRun(a, es).Some? && SpecRun(a, es).value.open == 1 && SameFs(sb, SpecRun(a, es).value.pending, img)
    requires i <= |ws| && SpecRun(a, es + Stores(op, ws[..i])).Some?
    ensures Storing(sb, SpecRun(a, es + Stores(op, ws[..i])).value, img, ws, i)
  {
    assert ws[..0] == [];
    StoresRun(sb, a, es, op, img, ws, i);
  }

  lemma StopsInside(sb: Super, a: Spec, images: seq<Image>, txs: seq<set<nat>>, writes: seq<seq<Put>>, n: nat,
                    c: seq<Label>)
    requires Makes(images, txs, writes) && Between(sb, a, images[0]) && 0 < n <= |writes| && c <= Script(writes, n)
    requires |Script(writes, n - 1)| < |c| < |Script(writes, n)| && SpecRun(a, c).Some?
    ensures SpecRun(a, c).value.open == 1
  {
    var es := Script(writes, n - 1);
    var i := ScriptPart(writes, n, es, c);
    SpecPrefix(a, c, |es|);
    ScriptRun(sb, a, images, txs, writes, n - 1);
    PartRun(sb, a, es, n - 1, images[n - 1], writes[n - 1], i);
  }

  lemma ScriptPart(writes: seq<seq<Put>>, n: nat, es: seq<Label>, c: seq<Label>) returns (i: nat)
    requires 0 < n <= |writes| && c <= Script(writes, n) && es == Script(writes, n - 1)
    requires |es| < |c| < |Script(writes, n)|
    ensures i <= |writes[n - 1]| && c == es + [Begin] + Stores(n - 1, writes[n - 1][..i]) && c[..|es|] == es
  {
    ScriptNext(writes, n);
    StoresLength(n - 1, writes[n - 1]);
    i := PartIs(es, n - 1, writes[n - 1], c);
  }

  /** Wherever the calls stop with no operation open, the cache has one of the images. */
  lemma {:induction false} StopsBetween(sb: Super, a: Spec, images: seq<Image>, txs: seq<set<nat>>,
                                        writes: seq<seq<Put>>, n: nat, c: seq<Label>) returns (k: nat)
    requires Makes(images, txs, writes) && Between(sb, a, images[0]) && n <= |writes| && c <= Script(writes, n)
    requires SpecRun(a, c).Some? && SpecRun(a, c).value.open == 0
    ensures k <= n && SameFs(sb, SpecRun(a, c).value.pending, images[k])
    ensures c == Script(writes, n) ==> k == n
    decreases n
  {
    if c == Script(writes, n) {
      ScriptRun(sb, a, images, txs, writes, n);
      k := n;
    } else {
      var es := Script(writes, n - 1);
      if |c| <= |es| {
        assert c <= es;
        k := StopsBetween(sb, a, images, txs, writes, n - 1, c);
      } else {
        StopsInside(sb, a, images, txs, writes, n, c);
        assert false;
      }
    }
  }

  lemma {:induction false} CallsPrefix(es: seq<Label>, n: nat)
    requires n <= |es|
    ensures Calls(es[..n]) <= Calls(es)
  {
    if n < |es| {
      CallsPrefix(es[..|es| - 1], n);
      assert es[..|es| - 1][..n] == es[..n];
    } else {
      assert es[..n] == es;
    }
  }

  /** What is committed is always one of the images. */
  lemma {:induction false} CommitsImages(sb: Super, a: Spec, images: seq<Image>, txs: seq<set<nat>>,
                                         writes: seq<seq<Put>>, es: seq<Label>) returns (k: nat)
    requires Makes(images, txs, writes) && Between(sb, a, images[0]) && SameFs(sb, a.durable, images[0])
    requires SpecRun(a, es).Some? && Crash !in es && Calls(es) <= Script(writes, |writes|)
    ensures k <= |writes| && SameFs(sb, SpecRun(a, es).value.durable, images[k])
  {
    if es == [] {
      k := 0;
    } else {
      var m := |es| - 1;
      CallsPrefix(es, m);
      k := CommitsImages(sb, a, images, txs, writes, es[..m]);
      if es[m].WriteHead? {
        CallsDecide(a, es[..m]);
        k := StopsBetween(sb, a, images, txs, writes, |writes|, Calls(es[..m]));
      }
    }
  }

  /** Once the write is gone with a crash, nothing more is committed. */
  lemma {:induction false} NothingMore(a: Spec, es: seq<Label>, rest: seq<Label>)
    requires SpecRun(a, es + rest).Some? && rest != [] && rest[0].Crash? && Calls(rest) == []
    ensures SpecRun(a, es).Some?
    ensures var c := SpecRun(a, es + rest).value; c.durable == c.pending == SpecRun(a, es).value.durable
    decreases |rest|
  {
    var m := |rest| - 1;
    assert es + rest == (es + rest[..m]) + [rest[m]];
    SpecSnoc(a, es + rest[..m], rest[m]);
    if m > 0 {
      assert Calls(rest[..m]) == [] && !IsCall(rest[m]);
      NothingMore(a, es, rest[..m]);
    } else {
      assert rest[..m] == [] && es + rest[..m] == es;
    }
  }

  // ---------- the theorem ----------

  /** The log lies before the inodes, and the file system within the disk. */
  predicate Apart(l: Layout, sb: Super) {
    l.start + l.size <= sb.inodestart && SuperOk(sb) && sb.size <= l.nblocks
  }

  lemma HomeFs(l: Layout, sb: Super, d: Disk, e: Disk, img: Image)
    requires Apart(l, sb) && HomeEq(l, d, e) && SameFs(sb, e, img)
    ensures SameFs(sb, d, img)
  {
    forall b | sb.inodestart <= b < sb.size
      ensures d[b] == img[b]
    {
      assert Home(l, b);
    }
  }

  /** The calls of the run are those of the write up to some point, where it ends or the machine crashes. */
  predicate Carries(writes: seq<seq<Put>>, before: seq<Label>, rest: seq<Label>) {
    Crash !in before && Calls(before) <= Script(writes, |writes|) && Calls(rest) == [] &&
      (rest != [] ==> rest[0].Crash?)
  }

  lemma Durable(l: Layout, s: State, before: seq<Label>, rest: seq<Label>, sb: Super, images: seq<Image>,
                txs: seq<set<nat>>, writes: seq<seq<Put>>) returns (k: nat)
    requires Sound(l) && Init(l, s) && Run(l, s, before + rest).Some? && Apart(l, sb)
    requires Makes(images, txs, writes) && SameFs(sb, Recover(l, s.disk), images[0]) && Carries(writes, before, rest)
    ensures k <= |txs| && DiskOk(l, Run(l, s, before + rest).value.disk)
    ensures SameFs(sb, Recover(l, Run(l, s, before + rest).value.disk), images[k])
  {
    LogSafety.CrashAtomicity(l, s, before + rest);
    var a := SpecInit(l, s.disk);
    var c := SpecRun(a, before + rest).value;
    if rest != [] {
      NothingMore(a, before, rest);
    } else {
      assert before + rest == before;
    }
    k := CommitsImages(sb, a, images, txs, writes, before);
    HomeFs(l, sb, Recover(l, Run(l, s, before + rest).value.disk), c.durable, images[k]);
  }

  /**
   Whatever the log does, wherever the machine stops during a write and however often during recovery,
   recovery yields the old file with the first k chunks of the write over it, for some k, and every
   other file as it was, on a disk as sound as the one before.
   */
  lemma CrashDuringWrite(l: Layout, s: State, before: seq<Label>, rest: seq<Label>, sb: Super, j: FileWrite.Job,
                         images: seq<Image>, txs: seq<set<nat>>, writes: seq<seq<Put>>) returns (k: nat)
    requires Sound(l) && Init(l, s) && Run(l, s, before + rest).Some? && Apart(l, sb)
    requires FileWrite.Steps(sb, j, images, txs) && Makes(images, txs, writes)
    requires SameFs(sb, Recover(l, s.disk), j.blk) && Carries(writes, before, rest)
    ensures k <= |txs| && DiskOk(l, Run(l, s, before + rest).value.disk)
    ensures FileWrite.Stage(sb, j, Recover(l, Run(l, s, before + rest).value.disk), FileWrite.Upto(|j.src|, k))
    ensures FileBytes.Consistent(sb, j.blk) ==>
              FileBytes.Consistent(sb, Recover(l, Run(l, s, before + rest).value.disk))
  {
    k := Durable(l, s, before, rest, sb, images, txs, writes);
    assert See(k);
    SameStage(sb, j, Recover(l, Run(l, s, before + rest).value.disk), images[k], FileWrite.Upto(|j.src|, k));
  }

  lemma FinishedCommitted(l: Layout, s: State, es: seq<Label>, sb: Super, images: seq<Image>, txs: seq<set<nat>>,
                          writes: seq<seq<Put>>)
    requires Sound(l) && Init(l, s) && Run(l, s, es).Some? && Apart(l, sb) && Makes(images, txs, writes)
    requires SameFs(sb, Recover(l, s.disk), images[0]) && Crash !in es && Calls(es) == Script(writes, |writes|)
    requires Run(l, s, es).value.phase.Running? && Run(l, s, es).value.outstanding == 0
    ensures SpecRun(SpecInit(l, s.disk), es).Some?
    ensures SameFs(sb, SpecRun(SpecInit(l, s.disk), es).value.durable, images[|txs|])
  {
    var a := SpecInit(l, s.disk);
    LogSafety.CrashAtomicity(l, s, es);
    var t, c := Run(l, s, es).value, SpecRun(a, es).value;
    CallsDecide(a, es);
    ScriptRun(sb, a, images, txs, writes, |txs|);
    HomeFs(l, sb, t.mem, c.pending, images[|txs|]);
    HomeFs(l, sb, c.durable, t.disk, images[|txs|]);
  }

  /** A write whose last transaction has left the log is there after any crash. */
  lemma FinishedWriteStays(l: Layout, s: State, before: seq<Label>, rest: seq<Label>, sb: Super, j: FileWrite.Job,
                           images: seq<Image>, txs: seq<set<nat>>, writes: seq<seq<Put>>)
    requires Sound(l) && Init(l, s) && Run(l, s, before).Some? && Run(l, s, before + rest).Some? && Apart(l, sb)
    requires FileWrite.Steps(sb, j, images, txs) && Makes(images, txs, writes)
    requires SameFs(sb, Recover(l, s.disk), j.blk) && Carries(writes, before, rest)
    requires Calls(before) == Script(writes, |writes|)
    requires Run(l, s, before).value.phase.Running? && Run(l, s, before).value.outstanding == 0
    ensures DiskOk(l, Run(l, s, before + rest).value.disk)
    ensures FileWrite.Stage(sb, j, Recover(l, Run(l, s, before + rest).value.disk), FileWrite.Upto(|j.src|, |txs|))
  {
    var a, n := SpecInit(l, s.disk), |txs|;
    FinishedCommitted(l, s, before, sb, images, txs, writes);
    LogSafety.CrashAtomicity(l, s, before + rest);
    var c := SpecRun(a, before).value;
    if rest != [] {
      NothingMore(a, before, rest);
    } else {
      assert before + rest == before;
    }
    var d := Recover(l, Run(l, s, before + rest).value.disk);
    HomeFs(l, sb, d, c.durable, images[n]);
    assert See(n);
    SameStage(sb, j, d, images[n], FileWrite.Upto(|j.src|, n));
  }
}
