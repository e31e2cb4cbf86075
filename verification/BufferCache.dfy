/** bcache as an object: each method is one section that bio.c runs under bcache.lock or a buffer's lock. */
module BufferCache {
  import opened Keys
  import opened Blocks
  import opened Bio

  /** The list holds every buffer, most recently idle first. */
  predicate Lru(order: seq<nat>, stamp: seq<nat>, clock: nat) {
    |order| == |stamp| == NBUF && (forall x: nat :: x < NBUF ==> x in order) &&
    (forall i :: 0 <= i < |order| ==> order[i] < NBUF) &&
    (forall i, j :: 0 <= i < j < NBUF ==> stamp[order[i]] > stamp[order[j]]) &&
    forall x :: 0 <= x < NBUF ==> stamp[x] < clock
  }

  lemma Touch(order: seq<nat>, stamp: seq<nat>, clock: nat, k: nat)
    requires Lru(order, stamp, clock) && k < NBUF
    ensures Lru([order[k]] + Without(order, k), stamp[order[k] := clock], clock + 1)
  {
    var order' := [order[k]] + Without(order, k);
    forall x: nat | x < NBUF
      ensures x in order'
    {
      assert x in order;
      var i :| 0 <= i < |order| && order[i] == x;
      assert order'[if i < k then i + 1 else if i == k then 0 else i] == x;
    }
    forall i, j | 0 <= i < j < NBUF
      ensures stamp[order[k] := clock][order'[i]] > stamp[order[k] := clock][order'[j]]
    {
      assert order'[j] == order[if j <= k then j - 1 else j];
      assert i > 0 ==> order'[i] == order[if i <= k then i - 1 else i];
    }
  }

  class Cache {
    const bufs: array<Buf>
    var disk: seq<Block>
    ghost var images: seq<seq<Block>> // the disk after each write: where a crash can leave it
    ghost var order: seq<nat>
    ghost var stamp: seq<nat>
    ghost var clock: nat

    ghost predicate Valid()
      reads this, bufs
    {
      bufs.Length == NBUF + 1 && |order| == |stamp| == NBUF && Coherent(bufs[..], disk) &&
      forall k {:trigger See(k)} :: k == INSIDE ==> ListOk(bufs[..], order) && Lru(order, stamp, clock)
    }

    /** Block contents as every bread sees them. */
    ghost function Mem(): (m: seq<Block>)
      reads this, bufs
      requires bufs.Length == NBUF + 1
      ensures |m| == |disk|
    {
      View(bufs[..], disk)
    }

    /** binit: an empty ring, then every buffer pushed to the front in turn. */
    constructor (disk: seq<Block>)
      ensures Valid() && fresh(bufs) && this.disk == disk && Mem() == disk && images == []
      ensures forall i :: 0 <= i < NBUF ==> Unused(bufs[i])
    {
      this.disk := disk;
      bufs := new Buf[NBUF + 1](i => Buf(0, 0, false, false, 0, 0, HEAD, HEAD, Zeroed()));
      images := [];
      order := [];
      stamp := seq(NBUF, i requires 0 <= i < NBUF => i);
      clock := NBUF;
      new;
      assert ListOk(bufs[..], []) by {
        assert Ring([]) == [HEAD, HEAD];
      }
      for b := 0 to NBUF
        invariant ListOk(bufs[..], order) && |order| == b
        invariant forall i :: 0 <= i < b ==> order[i] == b - 1 - i
        invariant forall i :: 0 <= i < NBUF ==> Unused(bufs[i])
        invariant stamp == seq(NBUF, i requires 0 <= i < NBUF => i) && clock == NBUF && this.disk == disk &&
                  images == []
      {
        PushFrontOk(bufs[..], order, b);
        MoveToFront(b);
        order := [b] + order;
      }
      forall x: nat | x < NBUF
        ensures x in order
      {
        assert order[NBUF - 1 - x] == x;
      }
      assert Lru(order, stamp, clock);
    }

    method MoveToFront(b: nat)
      requires bufs.Length == NBUF + 1 && b < NBUF && bufs[HEAD].next < NBUF + 1
      modifies bufs
      ensures bufs[..] == PushFront(old(bufs[..]), b)
      ensures forall i :: 0 <= i <= NBUF ==> bufs[i] == old(bufs[i]).(prev := bufs[i].prev, next := bufs[i].next)
    {
      bufs[b] := bufs[b].(next := bufs[HEAD].next);
      bufs[b] := bufs[b].(prev := HEAD);
      bufs[bufs[HEAD].next] := bufs[bufs[HEAD].next].(prev := b);
      bufs[HEAD] := bufs[HEAD].(next := b);
    }

    /** The first loop of bget: the buffer that holds the block, wherever it is on the list. */
    method Lookup(blockno: nat) returns (b: nat)
      requires Valid()
      ensures b <= NBUF
      ensures b < NBUF ==> Holds(bufs[b], blockno)
      ensures b == NBUF ==> forall i: nat :: i < NBUF ==> !Holds(bufs[i], blockno)
    {
      assert See(INSIDE);
      ghost var k := 1;
      RingStep(bufs[..], order, 0);
      b := bufs[HEAD].next;
      while b != HEAD
        invariant 1 <= k <= NBUF + 1 && b == Ring(order)[k]
        invariant forall i :: 0 <= i < k - 1 ==> !Holds(bufs[order[i]], blockno)
        decreases NBUF + 1 - k
      {
        if bufs[b].dev == ROOTDEV && bufs[b].blockno == blockno {
          return;
        }
        RingStep(bufs[..], order, k);
        b := bufs[b].next;
        k := k + 1;
      }
      forall i: nat | i < NBUF
        ensures !Holds(bufs[i], blockno)
      {
        assert i in order;
      }
    }

    /** The second loop of bget, from the tail: the least recently idle buffer that is clean. */
    method Victim() returns (b: nat)
      requires Valid()
      ensures b <= NBUF
      ensures b < NBUF ==> Idle(bufs[b]) && forall i: nat :: i < NBUF && Idle(bufs[i]) ==> stamp[b] <= stamp[i]
      ensures b == NBUF ==> forall i: nat :: i < NBUF ==> !Idle(bufs[i])
    {
      assert See(INSIDE);
      ghost var k := NBUF;
      RingStep(bufs[..], order, NBUF);
      b := bufs[HEAD].prev;
      while b != HEAD && (bufs[b].refcnt != 0 || bufs[b].dirty)
        invariant 0 <= k <= NBUF && b == Ring(order)[k]
        invariant forall i :: k <= i < NBUF ==> !Idle(bufs[order[i]])
        decreases k
      {
        RingStep(bufs[..], order, k - 1);
        b := bufs[b].prev;
        k := k - 1;
      }
      forall i: nat | i < NBUF && Idle(bufs[i])
        ensures b < NBUF && stamp[b] <= stamp[i]
      {
        assert i in order;
        var j :| 0 <= j < NBUF && order[j] == i;
      }
    }

    /**
     bget up to the point where the buffer lock is taken: find the block, else recycle the victim;
     NBUF stands for the panic.
     */
    method Bget(blockno: nat) returns (b: nat)
      requires Valid() && blockno < |disk|
      modifies bufs
      ensures Valid() && Mem() == old(Mem()) && b <= NBUF
      ensures b == NBUF <==> old(forall i :: 0 <= i < NBUF ==> !Holds(bufs[i], blockno) && !Idle(bufs[i]))
      ensures b == NBUF ==> bufs[..] == old(bufs[..])
      ensures b < NBUF && old(Holds(bufs[b], blockno)) ==>
                bufs[..] == old(bufs[..])[b := old(bufs[b]).(refcnt := old(bufs[b].refcnt) + 1)]
      ensures b < NBUF && !old(Holds(bufs[b], blockno)) ==>
                && old(forall i :: 0 <= i < NBUF ==> !Holds(bufs[i], blockno)) && old(Idle(bufs[b]))
                && old(forall i :: 0 <= i < NBUF && Idle(bufs[i]) ==> stamp[b] <= stamp[i])
                && bufs[..] == old(bufs[..])[b := Recycled(old(bufs[b]), blockno)]
    {
      assert See(INSIDE);
      ghost var bs := bufs[..];
      b := Lookup(blockno);
      if b < NBUF {
        bufs[b] := bufs[b].(refcnt := bufs[b].refcnt + 1);
        HitOk(bs, bufs[..], disk, b);
      } else {
        b := Victim();
        if b < NBUF {
          bufs[b] := bufs[b].(dev := ROOTDEV, blockno := blockno);
          bufs[b] := bufs[b].(valid := false, dirty := false);
          bufs[b] := bufs[b].(refcnt := 1);
          MissOk(bs, bufs[..], disk, b, blockno);
        }
      }
      LinksKept(bs, bufs[..], order);
    }

    /** acquiresleep, once the lock is free. */
    method Acquire(b: nat, p: nat)
      requires Valid() && b < NBUF && bufs[b].owner == 0 && bufs[b].refcnt > 0 && p != 0
      modifies bufs
      ensures Valid() && Mem() == old(Mem()) && bufs[..] == old(bufs[..])[b := old(bufs[b]).(owner := p)]
    {
      assert See(INSIDE);
      ghost var bs := bufs[..];
      bufs[b] := bufs[b].(owner := p);
      LinksKept(bs, bufs[..], order);
      ViewSame(bs, bufs[..], disk);
    }

    /** The rest of bread: iderw reads the block if the buffer is not valid. */
    method Fill(b: nat)
      requires Valid() && b < NBUF && bufs[b].owner != 0
      modifies bufs
      ensures Valid() && Mem() == old(Mem())
      ensures bufs[b].valid && bufs[b].data == Mem()[bufs[b].blockno]
      ensures bufs[..] == old(bufs[..])[b := old(bufs[b]).(valid := true, data := bufs[b].data)]
    {
      assert See(INSIDE);
      ghost var bs := bufs[..];
      if !bufs[b].valid {
        bufs[b] := bufs[b].(data := disk[bufs[b].blockno], valid := true);
        ViewUpdate(bs, disk, bufs[..], disk, b, bufs[b].blockno, bufs[b].data);
        assert forall i :: 0 <= i < NBUF && Holds(bs[i], bs[b].blockno) ==> i == b;
        assert View(bs, disk)[bs[b].blockno] == disk[bs[b].blockno];
      }
      ViewAt(bufs[..], disk, b);
      LinksKept(bs, bufs[..], order);
    }

    /** bread, when nobody else has the block locked. */
    method Bread(blockno: nat, p: nat) returns (b: nat)
      requires Valid() && blockno < |disk| && p != 0 && Free(bufs[..], blockno)
      modifies bufs
      ensures Valid() && Mem() == old(Mem()) && b <= NBUF
      ensures b < NBUF ==> Held(bufs[b], blockno, p) && bufs[b].data == Mem()[blockno]
      ensures b < NBUF ==> (bufs[b].dirty <==> old(bufs[b].dirty && Holds(bufs[b], blockno)))
      ensures forall i :: 0 <= i < NBUF && i != b ==> bufs[i] == old(bufs[i])
      ensures b < NBUF ==> old(Idle(bufs[b]) || Holds(bufs[b], blockno)) && bufs[b].refcnt == old(bufs[b].refcnt) + 1
      ensures b == NBUF <==> old(forall i :: 0 <= i < NBUF ==> !Holds(bufs[i], blockno) && !Idle(bufs[i]))
    {
      b := Bget(blockno);
      if b < NBUF {
        Acquire(b, p);
        Fill(b);
      }
    }

    /** brelse, by the holder. */
    method Brelse(b: nat)
      requires Valid() && b < NBUF && bufs[b].owner != 0
      requires bufs[b].valid ==> bufs[b].dirty || bufs[b].data == disk[bufs[b].blockno]
      modifies this`order, this`stamp, this`clock, bufs
      ensures Valid() && Mem() == old(Mem())
      ensures SameBut(old(bufs[b]).(owner := 0, refcnt := old(bufs[b].refcnt) - 1), bufs[b])
      ensures forall i :: 0 <= i < NBUF && i != b ==> SameBut(old(bufs[i]), bufs[i])
      ensures if bufs[b].refcnt == 0 then order[0] == b && forall i :: 0 <= i < NBUF && i != b ==> stamp[i] < stamp[b]
              else order == old(order)
    {
      Release(b);
      Unref(b);
    }

    /** A holder of the buffer stores new contents. */
    method SetData(b: nat, v: Block)
      requires Valid() && b < NBUF && bufs[b].owner != 0 && bufs[b].valid
      modifies bufs
      ensures Valid() && Mem() == old(Mem()[bufs[b].blockno := v])
      ensures bufs[..] == old(bufs[..])[b := old(bufs[b]).(data := v)]
    {
      assert See(INSIDE);
      ghost var bs := bufs[..];
      bufs[b] := bufs[b].(data := v);
      ViewUpdate(bs, disk, bufs[..], disk, b, bufs[b].blockno, v);
      LinksKept(bs, bufs[..], order);
    }

    /** log_write's B_DIRTY: the buffer cannot be recycled until bwrite. */
    method Pin(b: nat)
      requires Valid() && b < NBUF && bufs[b].owner != 0 && bufs[b].valid
      modifies bufs
      ensures Valid() && Mem() == old(Mem()) && bufs[..] == old(bufs[..])[b := old(bufs[b]).(dirty := true)]
    {
      assert See(INSIDE);
      ghost var bs := bufs[..];
      bufs[b] := bufs[b].(dirty := true);
      LinksKept(bs, bufs[..], order);
      ViewSame(bs, bufs[..], disk);
    }

    /** bwrite: set B_DIRTY, and iderw writes the block and clears the flag. */
    method Bwrite(b: nat)
      requires Valid() && b < NBUF && bufs[b].owner != 0 && bufs[b].valid
      modifies this`disk, this`images, bufs
      ensures Valid() && Mem() == old(Mem()) && disk == old(disk[bufs[b].blockno := bufs[b].data])
      ensures images == old(images) + [disk]
      ensures bufs[..] == old(bufs[..])[b := old(bufs[b]).(dirty := false)]
    {
      assert See(INSIDE);
      ghost var (bs, d) := (bufs[..], disk);
      bufs[b] := bufs[b].(dirty := true);
      disk := disk[bufs[b].blockno := bufs[b].data];
      images := images + [disk];
      bufs[b] := bufs[b].(dirty := false, valid := true);
      ViewAt(bs, d, b);
      ViewUpdate(bs, d, bufs[..], disk, b, bufs[b].blockno, bufs[b].data);
      LinksKept(bs, bufs[..], order);
    }

    /** releasesleep, by a holder that has passed every change to bwrite or log_write. */
    method Release(b: nat)
      requires Valid() && b < NBUF && bufs[b].owner != 0
      requires bufs[b].valid ==> bufs[b].dirty || bufs[b].data == disk[bufs[b].blockno]
      modifies bufs
      ensures Valid() && Mem() == old(Mem()) && bufs[..] == old(bufs[..])[b := old(bufs[b]).(owner := 0)]
    {
      assert See(INSIDE);
      ghost var bs := bufs[..];
      bufs[b] := bufs[b].(owner := 0);
      LinksKept(bs, bufs[..], order);
      ViewSame(bs, bufs[..], disk);
    }

    /** The second half of brelse: drop the reference, and on the last one move to the front. */
    method Unref(b: nat)
      requires Valid() && b < NBUF && bufs[b].refcnt > 0 && (bufs[b].refcnt == 1 ==> bufs[b].owner == 0)
      modifies this`order, this`stamp, this`clock, bufs
      ensures Valid() && Mem() == old(Mem())
      ensures SameBut(old(bufs[b]).(refcnt := old(bufs[b].refcnt) - 1), bufs[b])
      ensures forall i :: 0 <= i < NBUF && i != b ==> SameBut(old(bufs[i]), bufs[i])
      ensures if bufs[b].refcnt == 0 then order[0] == b && forall i :: 0 <= i < NBUF && i != b ==> stamp[i] < stamp[b]
              else order == old(order)
    {
      assert See(INSIDE);
      ghost var bs := bufs[..];
      bufs[b] := bufs[b].(refcnt := bufs[b].refcnt - 1);
      LinksKept(bs, bufs[..], order);
      if bufs[b].refcnt == 0 {
        Splice(b);
      }
      ViewSame(bs, bufs[..], disk);
    }

    method Detach(b: nat)
      requires bufs.Length == NBUF + 1 && b < NBUF && bufs[b].next < NBUF + 1 && bufs[b].prev < NBUF + 1
      modifies bufs
      ensures bufs[..] == Unlink(old(bufs[..]), b)
      ensures forall i :: 0 <= i <= NBUF ==> bufs[i] == old(bufs[i]).(prev := bufs[i].prev, next := bufs[i].next)
    {
      bufs[bufs[b].next] := bufs[bufs[b].next].(prev := bufs[b].prev);
      bufs[bufs[b].prev] := bufs[bufs[b].prev].(next := bufs[b].next);
    }

    /** Take the buffer out of the ring and put it back at the front. */
    method Splice(b: nat)
      requires bufs.Length == NBUF + 1 && ListOk(bufs[..], order) && Lru(order, stamp, clock) && b < NBUF
      modifies this`order, this`stamp, this`clock, bufs
      ensures ListOk(bufs[..], order) && Lru(order, stamp, clock)
      ensures order[0] == b && forall i :: 0 <= i < NBUF && i != b ==> stamp[i] < stamp[b]
      ensures forall i :: 0 <= i <= NBUF ==> bufs[i] == old(bufs[i]).(prev := bufs[i].prev, next := bufs[i].next)
    {
      ghost var bs := bufs[..];
      assert b in order;
      ghost var k :| 0 <= k < |order| && order[k] == b;
      ghost var rest := Without(order, k);
      Touch(order, stamp, clock, k);
      UnlinkOk(bs, order, k);
      Detach(b);
      PushFrontOk(bufs[..], rest, b);
      MoveToFront(b);
      order, stamp, clock := [b] + rest, stamp[b := clock], clock + 1;
    }
  }

  predicate Held(b: Buf, blockno: nat, p: nat) {
    Holds(b, blockno) && b.owner == p && b.valid
  }

  /** No buffer that holds the block is locked. */
  predicate Free(bs: seq<Buf>, blockno: nat)
    requires |bs| == NBUF + 1
  {
    forall i :: 0 <= i < NBUF && Holds(bs[i], blockno) ==> bs[i].owner == 0
  }

  /** Equal apart from the list links. */
  predicate SameBut(b: Buf, c: Buf) {
    SameContent(b, c) && b.dirty == c.dirty && b.owner == c.owner && b.refcnt == c.refcnt
  }

  predicate Unused(b: Buf) {
    b.dev == 0 && !b.valid && Idle(b) && b.owner == 0
  }

  function Recycled(b: Buf, blockno: nat): Buf {
    b.(dev := ROOTDEV, blockno := blockno, valid := false, dirty := false, refcnt := 1)
  }

  lemma RingStep(bs: seq<Buf>, order: seq<nat>, k: nat)
    requires ListOk(bs, order) && k <= |order|
    ensures Linked(bs, Ring(order)[k], Ring(order)[k + 1])
  {}

  lemma HitOk(bs: seq<Buf>, bs': seq<Buf>, disk: seq<Block>, b: nat)
    requires Coherent(bs, disk) && b < NBUF && bs[b].dev == ROOTDEV
    requires bs' == bs[b := bs[b].(refcnt := bs[b].refcnt + 1)]
    ensures Coherent(bs', disk) && View(bs', disk) == View(bs, disk)
  {
    ViewSame(bs, bs', disk);
  }

  lemma MissOk(bs: seq<Buf>, bs': seq<Buf>, disk: seq<Block>, b: nat, n: nat)
    requires Coherent(bs, disk) && b < NBUF && n < |disk| && Idle(bs[b])
    requires bs' == bs[b := Recycled(bs[b], n)]
    requires forall i :: 0 <= i < NBUF ==> !Holds(bs[i], n)
    ensures Coherent(bs', disk) && View(bs', disk) == View(bs, disk)
  {
    ViewUpdate(bs, disk, bs', disk, b, n, disk[n]);
    assert View(bs, disk)[n] == disk[n];
  }

  lemma LinksKept(bs: seq<Buf>, bs': seq<Buf>, order: seq<nat>)
    requires ListOk(bs, order) && |bs'| == |bs|
    requires forall i :: 0 <= i < |bs| ==> bs'[i].prev == bs[i].prev && bs'[i].next == bs[i].next
    ensures ListOk(bs', order)
  {
    forall i | 0 <= i <= |order|
      ensures Linked(bs', Ring(order)[i], Ring(order)[i + 1])
    {
      assert Linked(bs, Ring(order)[i], Ring(order)[i + 1]);
    }
  }
}
