/** The buffer cache of bio.c: NBUF buffers on a circular LRU list, over a disk of blocks. */
module Bio {
  import opened Blocks

  const NBUF: nat := 30
  const HEAD: nat := NBUF // bcache.head; pointers into bcache.buf are indices below it
  const ROOTDEV: nat := 1

  datatype Buf = Buf(dev: nat, blockno: nat, valid: bool, dirty: bool, owner: nat, refcnt: nat,
                     prev: nat, next: nat, data: Block)

  // ---------- the circular list ----------

  function Ring(order: seq<nat>): seq<nat> {
    [HEAD] + order + [HEAD]
  }

  predicate Linked(bs: seq<Buf>, x: nat, y: nat)
    requires x < |bs| && y < |bs|
  {
    bs[x].next == y && bs[y].prev == x
  }

  /** `order` lists, from head.next on, distinct buffers joined by next and prev into one ring. */
  predicate ListOk(bs: seq<Buf>, order: seq<nat>) {
    |bs| == NBUF + 1 && (forall i :: 0 <= i < |order| ==> order[i] < NBUF) &&
    (forall i, j :: 0 <= i < j < |order| ==> order[i] != order[j]) &&
    (forall i :: 0 <= i <= |order| ==> Linked(bs, Ring(order)[i], Ring(order)[i + 1]))
  }

  /** b->next = head.next; b->prev = &head; head.next->prev = b; head.next = b. */
  function PushFront(bs: seq<Buf>, x: nat): seq<Buf>
    requires x < |bs| == NBUF + 1 && bs[HEAD].next < |bs|
  {
    var b1 := bs[x := bs[x].(next := bs[HEAD].next)];
    var b2 := b1[x := b1[x].(prev := HEAD)];
    var b3 := b2[bs[HEAD].next := b2[bs[HEAD].next].(prev := x)];
    b3[HEAD := b3[HEAD].(next := x)]
  }

  /** b->next->prev = b->prev; b->prev->next = b->next. */
  function Unlink(bs: seq<Buf>, x: nat): seq<Buf>
    requires x < |bs| && bs[x].next < |bs| && bs[x].prev < |bs|
  {
    var b1 := bs[bs[x].next := bs[bs[x].next].(prev := bs[x].prev)];
    b1[b1[x].prev := b1[b1[x].prev].(next := b1[x].next)]
  }

  lemma PushFrontOk(bs: seq<Buf>, order: seq<nat>, x: nat)
    requires ListOk(bs, order) && x < NBUF && x !in order
    ensures Ring(order)[1] == bs[HEAD].next < |bs| && ListOk(PushFront(bs, x), [x] + order)
  {
    var (r, r') := (Ring(order), Ring([x] + order));
    assert Linked(bs, r[0], r[1]);
    var bs' := PushFront(bs, x);
    forall i | 0 <= i <= |order| + 1
      ensures Linked(bs', r'[i], r'[i + 1])
    {
      if i >= 2 {
        assert r'[i] == r[i - 1] && r'[i + 1] == r[i];
        assert Linked(bs, r[i - 1], r[i]);
      }
    }
  }

  function Without(order: seq<nat>, k: nat): seq<nat>
    requires k < |order|
  {
    order[..k] + order[k + 1..]
  }

  lemma UnlinkOk(bs: seq<Buf>, order: seq<nat>, k: nat)
    requires ListOk(bs, order) && k < |order|
    ensures var x := order[k]; bs[x].next == Ring(order)[k + 2] < |bs| && bs[x].prev == Ring(order)[k] < |bs|
    ensures ListOk(Unlink(bs, order[k]), Without(order, k)) && order[k] !in Without(order, k)
  {
    var x := order[k];
    var (r, r') := (Ring(order), Ring(Without(order, k)));
    assert r[k + 1] == x;
    assert Linked(bs, r[k], r[k + 1]) && Linked(bs, r[k + 1], r[k + 2]);
    var bs' := Unlink(bs, x);
    forall i | 0 <= i < |order|
      ensures Linked(bs', r'[i], r'[i + 1])
    {
      if i < k {
        assert r'[i] == r[i] && r'[i + 1] == r[i + 1] && Linked(bs, r[i], r[i + 1]);
      } else if i == k {
        assert r'[i] == r[i] && r'[i + 1] == r[i + 2];
      } else {
        assert r'[i] == r[i + 1] && r'[i + 1] == r[i + 2] && Linked(bs, r[i + 1], r[i + 2]);
      }
    }
  }

  // ---------- coherence ----------

  predicate Holds(b: Buf, blockno: nat) {
    b.dev == ROOTDEV && b.blockno == blockno
  }

  predicate Idle(b: Buf) {
    b.refcnt == 0 && !b.dirty
  }

  /** Valid contents equal the disk's unless the buffer is locked or pinned dirty. */
  predicate BufOk(b: Buf, disk: seq<Block>) {
    ((b.dev == ROOTDEV && b.blockno < |disk|) || (b.dev == 0 && Idle(b) && !b.valid)) &&
    (b.dirty ==> b.valid) && (b.refcnt == 0 ==> b.owner == 0) &&
    (b.valid && !b.dirty && b.owner == 0 ==> b.data == disk[b.blockno])
  }

  predicate Coherent(bs: seq<Buf>, disk: seq<Block>) {
    |bs| == NBUF + 1 && (forall i :: 0 <= i < NBUF ==> BufOk(bs[i], disk)) &&
    (forall i, j :: 0 <= i < j < NBUF && bs[i].dev == bs[j].dev == ROOTDEV ==> bs[i].blockno != bs[j].blockno)
  }

  /** What bread returns for block n: the cached copy if there is a valid one, else the disk's. */
  ghost function Cached(bs: seq<Buf>, disk: seq<Block>, n: nat): Block
    requires |bs| == NBUF + 1 && n < |disk|
  {
    if exists i :: 0 <= i < NBUF && Holds(bs[i], n) && bs[i].valid then
      var i :| 0 <= i < NBUF && Holds(bs[i], n) && bs[i].valid;
      bs[i].data
    else
      disk[n]
  }

  ghost function View(bs: seq<Buf>, disk: seq<Block>): (v: seq<Block>)
    requires |bs| == NBUF + 1
    ensures |v| == |disk|
  {
    seq(|disk|, n requires 0 <= n < |disk| => Cached(bs, disk, n))
  }

  lemma ViewAt(bs: seq<Buf>, disk: seq<Block>, i: nat)
    requires Coherent(bs, disk) && i < NBUF && bs[i].dev == ROOTDEV && bs[i].valid
    ensures View(bs, disk)[bs[i].blockno] == bs[i].data
  {
    assert Holds(bs[i], bs[i].blockno);
  }

  /** Changing one buffer's record, so that its block reads as v from then on. */
  lemma ViewUpdate(bs: seq<Buf>, disk: seq<Block>, bs': seq<Buf>, disk': seq<Block>, i: nat, n: nat, v: Block)
    requires Coherent(bs, disk) && Coherent(bs', disk') && i < NBUF && n < |disk| == |disk'|
    requires forall j :: 0 <= j < NBUF && j != i ==> SameContent(bs[j], bs'[j])
    requires Holds(bs'[i], n) && (if bs'[i].valid then bs'[i].data == v else disk'[n] == v)
    requires disk' == disk || disk' == disk[n := disk'[n]]
    requires Holds(bs[i], n) || Idle(bs[i])
    ensures View(bs', disk') == View(bs, disk)[n := v]
  {
    forall m | 0 <= m < |disk|
      ensures Cached(bs', disk', m) == if m == n then v else Cached(bs, disk, m)
    {
      if m == n {
        if bs'[i].valid {
          ViewAt(bs', disk', i);
        } else {
          assert forall j :: 0 <= j < NBUF && Holds(bs'[j], n) ==> j == i;
        }
      } else {
        OthersSame(bs, disk, bs', disk', i, n, m);
      }
    }
  }

  lemma OthersSame(bs: seq<Buf>, disk: seq<Block>, bs': seq<Buf>, disk': seq<Block>, i: nat, n: nat, m: nat)
    requires Coherent(bs, disk) && Coherent(bs', disk') && i < NBUF && m < |disk| == |disk'| && m != n
    requires forall j :: 0 <= j < NBUF && j != i ==> SameContent(bs[j], bs'[j])
    requires Holds(bs'[i], n) && disk[m] == disk'[m] && (Holds(bs[i], n) || Idle(bs[i]))
    ensures Cached(bs', disk', m) == Cached(bs, disk, m)
  {
    if j :| 0 <= j < NBUF && Holds(bs[j], m) && bs[j].valid {
      ViewAt(bs, disk, j);
      if j != i {
        assert SameContent(bs[j], bs'[j]);
        ViewAt(bs', disk', j);
      } else {
        assert forall k :: 0 <= k < NBUF ==> !Holds(bs'[k], m);
      }
    } else {
      assert forall k :: 0 <= k < NBUF && Holds(bs'[k], m) ==> !bs'[k].valid;
    }
  }

  predicate SameContent(b: Buf, c: Buf) {
    b.dev == c.dev && b.blockno == c.blockno && b.valid == c.valid && b.data == c.data
  }

  lemma ViewSame(bs: seq<Buf>, bs': seq<Buf>, disk: seq<Block>)
    requires Coherent(bs, disk) && Coherent(bs', disk)
    requires forall j :: 0 <= j < NBUF ==> SameContent(bs[j], bs'[j])
    ensures View(bs', disk) == View(bs, disk)
  {
    forall m | 0 <= m < |disk|
      ensures Cached(bs', disk, m) == Cached(bs, disk, m)
    {
      assert forall j :: 0 <= j < NBUF ==> Holds(bs[j], m) == Holds(bs'[j], m);
    }
  }
}
