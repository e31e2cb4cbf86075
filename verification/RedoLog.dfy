/**
 log.c over the buffer cache: the loops of commit and recovery, with the disk image after every
 single block write recorded in cache.images, so that the contracts speak of a crash at each of them.
 */
module RedoLog {
  import opened Words
  import opened Blocks
  import opened Bio
  import opened BufferCache
  import opened LogProtocol
  import opened LogSafety

  // ---------- dirty flags ----------

  /** Nobody has a buffer locked or refers to one. */
  predicate AllFree(bs: seq<Buf>) {
    |bs| == NBUF + 1 && forall i :: 0 <= i < NBUF ==> bs[i].owner == 0 && bs[i].refcnt == 0
  }

  /** Only buffers x and y are in use, by one holder each. */
  predicate OnlyTwo(bs: seq<Buf>, x: nat, y: nat) {
    && |bs| == NBUF + 1 && x < NBUF && y < NBUF && bs[x].refcnt == bs[y].refcnt == 1
    && forall i :: 0 <= i < NBUF && i != x && i != y ==> bs[i].owner == 0 && bs[i].refcnt == 0
  }

  predicate DirtyLogged(bs: seq<Buf>, lh: seq<nat>) {
    |bs| == NBUF + 1 && forall i :: 0 <= i < NBUF && bs[i].dirty ==> bs[i].blockno in lh
  }

  predicate PinnedAt(bs: seq<Buf>, b: nat) {
    |bs| == NBUF + 1 && exists i :: 0 <= i < NBUF && Holds(bs[i], b) && bs[i].dirty
  }

  /** The dirty buffers are exactly the buffers of the blocks in the header. */
  predicate Pinned(bs: seq<Buf>, lh: seq<nat>) {
    DirtyLogged(bs, lh) && forall k :: 0 <= k < |lh| ==> PinnedAt(bs, lh[k])
  }

  /** After a bwrite of block `to`: its flag is clear, every other dirty buffer stays pinned. */
  predicate Cleaned(bs: seq<Buf>, bs': seq<Buf>, to: nat) {
    |bs| == |bs'| == NBUF + 1 &&
    forall i :: 0 <= i < NBUF ==>
      (bs'[i].dirty <==> bs[i].dirty && bs[i].blockno != to) &&
      (bs'[i].dirty ==> bs'[i].blockno == bs[i].blockno && bs'[i].dev == bs[i].dev)
  }

  lemma CleanedPins(bs: seq<Buf>, bs': seq<Buf>, lh: seq<nat>, to: nat)
    requires Cleaned(bs, bs', to) && to !in lh && Pinned(bs, lh)
    ensures Pinned(bs', lh)
  {
    forall k | 0 <= k < |lh|
      ensures PinnedAt(bs', lh[k])
    {
      var i :| 0 <= i < NBUF && Holds(bs[i], lh[k]) && bs[i].dirty;
      assert Holds(bs'[i], lh[k]) && bs'[i].dirty;
    }
  }

  lemma PinOne(bs: seq<Buf>, bs': seq<Buf>, lh: seq<nat>, b: nat)
    requires Pinned(bs, lh) && b < NBUF && bs[b].dev == ROOTDEV && bs' == bs[b := bs[b].(dirty := true)]
    ensures Pinned(bs', Absorb(lh, bs[b].blockno))
  {
    var lh' := Absorb(lh, bs[b].blockno);
    forall k | 0 <= k < |lh'|
      ensures PinnedAt(bs', lh'[k])
    {
      if k < |lh| {
        assert PinnedAt(bs, lh[k]);
        var i :| 0 <= i < NBUF && Holds(bs[i], lh[k]) && bs[i].dirty;
        assert Holds(bs'[i], lh[k]) && bs'[i].dirty;
      } else {
        assert Holds(bs'[b], lh'[k]) && bs'[b].dirty;
      }
    }
  }

  lemma CleanedLogged(bs: seq<Buf>, bs': seq<Buf>, lh: seq<nat>)
    requires lh != [] && Cleaned(bs, bs', lh[0]) && DirtyLogged(bs, lh)
    ensures DirtyLogged(bs', lh[1..])
  {
    assert lh == [lh[0]] + lh[1..];
  }

  /** Away from the header's blocks an unlocked cache shows the disk. */
  lemma CleanShowsDisk(bs: seq<Buf>, disk: seq<Block>, lh: seq<nat>, b: nat)
    requires Coherent(bs, disk) && AllFree(bs) && DirtyLogged(bs, lh) && b < |disk| && b !in lh
    ensures View(bs, disk)[b] == disk[b]
  {}

  // ---------- room in the cache ----------

  predicate TwoIdle(bs: seq<Buf>) {
    |bs| == NBUF + 1 && exists i, j :: 0 <= i < j < NBUF && Idle(bs[i]) && Idle(bs[j])
  }

  /** Taking one of the buffers leaves another. */
  lemma IdleLeft(bs: seq<Buf>, bs': seq<Buf>, x: nat)
    requires |bs| == |bs'| == NBUF + 1 && forall i :: 0 <= i < NBUF && i != x ==> bs'[i] == bs[i]
    ensures TwoIdle(bs) ==> exists i :: 0 <= i < NBUF && Idle(bs'[i])
  {
    if i, j :| 0 <= i < j < NBUF && Idle(bs[i]) && Idle(bs[j]) {
      assert Idle(bs'[if i == x then j else i]);
    }
  }

  /** bread of block b into buffer x; nothing if x is no buffer. */
  predicate Took(bs: seq<Buf>, bs': seq<Buf>, b: nat, x: nat) {
    && |bs| == |bs'| == NBUF + 1 && (forall i :: 0 <= i < NBUF && i != x ==> bs'[i] == bs[i])
    && (x < NBUF ==> Held(bs'[x], b, 1) && (Idle(bs[x]) || Holds(bs[x], b)) && bs'[x].refcnt == bs[x].refcnt + 1)
    && (x < NBUF ==> (bs'[x].dirty <==> bs[x].dirty && Holds(bs[x], b)))
  }

  lemma TookTwo(bs: seq<Buf>, bs1: seq<Buf>, bs2: seq<Buf>, b: nat, c: nat, x: nat, y: nat, disk: seq<Block>)
    requires AllFree(bs) && Coherent(bs, disk) && Took(bs, bs1, b, x) && Took(bs1, bs2, c, y)
    requires b < |disk| && c < |disk| && b != c && x < NBUF
    ensures Cleaned(bs, bs2, |disk|)
    ensures y < NBUF ==> x != y && Held(bs2[x], b, 1) && OnlyTwo(bs2, x, y) && OnlyTwo(bs2, y, x)
  {
  }

  /** So few buffers are pinned that two can be recycled. */
  predicate Roomy(bs: seq<Buf>, lh: seq<nat>) {
    DirtyLogged(bs, lh) && (|lh| <= NBUF - 2 || DirtyLogged(bs, []))
  }

  predicate DirtyIn(bs: seq<Buf>, blocks: set<nat>, n: nat)
    requires n <= |bs|
  {
    forall i :: 0 <= i < n && bs[i].dirty ==> bs[i].blockno in blocks
  }

  /** Dirty buffers hold different blocks: with fewer blocks than buffers, one is clean. */
  lemma {:induction false} OneClean(bs: seq<Buf>, disk: seq<Block>, blocks: set<nat>, n: nat) returns (i: nat)
    requires Coherent(bs, disk) && |blocks| < n <= NBUF && DirtyIn(bs, blocks, n)
    ensures i < n && !bs[i].dirty
    decreases n
  {
    if bs[n - 1].dirty {
      i := OneClean(bs, disk, blocks - {bs[n - 1].blockno}, n - 1);
    } else {
      i := n - 1;
    }
  }

  lemma {:induction false} TwoClean(bs: seq<Buf>, disk: seq<Block>, blocks: set<nat>, n: nat) returns (i: nat, j: nat)
    requires Coherent(bs, disk) && |blocks| + 2 <= n <= NBUF && DirtyIn(bs, blocks, n)
    ensures i < j < n && !bs[i].dirty && !bs[j].dirty
    decreases n
  {
    if bs[n - 1].dirty {
      i, j := TwoClean(bs, disk, blocks - {bs[n - 1].blockno}, n - 1);
    } else {
      i := OneClean(bs, disk, blocks, n - 1);
      j := n - 1;
    }
  }

  lemma {:induction false} BlocksOf(lh: seq<nat>) returns (blocks: set<nat>)
    ensures |blocks| <= |lh| && forall b <- lh :: b in blocks
    decreases |lh|
  {
    if lh == [] {
      blocks := {};
    } else {
      blocks := BlocksOf(lh[1..]);
      blocks := blocks + {lh[0]};
      assert lh == [lh[0]] + lh[1..];
    }
  }

  lemma RoomyTwo(bs: seq<Buf>, disk: seq<Block>, lh: seq<nat>)
    requires Coherent(bs, disk) && AllFree(bs) && Roomy(bs, lh)
    ensures TwoIdle(bs)
  {
    var blocks := BlocksOf(if |lh| <= NBUF - 2 then lh else []);
    var i, j := TwoClean(bs, disk, blocks, NBUF);
    assert Idle(bs[i]) && Idle(bs[j]);
  }

  // ---------- what a crash can find ----------

  /** Recovering from the image d yields the home blocks of e. */
  predicate Recovers(l: Layout, d: Disk, e: Disk) {
    DiskOk(l, d) && HomeEq(l, Recover(l, d), e)
  }

  /** The header is empty, and the home blocks are those of e. */
  predicate Empty(l: Layout, d: Disk, e: Disk) {
    DiskOk(l, d) && GetHeader(d[l.start]) == [] && HomeEq(l, d, e)
  }

  lemma EmptyRecovers(l: Layout, d: Disk, e: Disk)
    requires Empty(l, d, e)
    ensures Recovers(l, d, e)
  {}

  /** The header lists lh, and the log area holds those blocks as they are in e. */
  predicate Logged(l: Layout, d: Disk, lh: seq<nat>, e: Disk) {
    DiskOk(l, d) && GetHeader(d[l.start]) == lh && Replays(l, d, lh, e)
  }

  lemma LoggedRecovers(l: Layout, d: Disk, lh: seq<nat>, e: Disk)
    requires Logged(l, d, lh, e)
    ensures Recovers(l, d, e)
  {
    ReplayUnique(l, d, e);
  }

  /** Images from index i on all recover to e. */
  ghost predicate AllRecover(l: Layout, images: seq<Disk>, i: nat, j: nat, e: Disk) {
    i <= j <= |images| && forall k :: i <= k < j ==> Recovers(l, images[k], e)
  }

  lemma RecoverMore(l: Layout, images: seq<Disk>, i: nat, d: Disk, e: Disk)
    requires AllRecover(l, images, i, |images|, e) && Recovers(l, d, e)
    ensures AllRecover(l, images + [d], i, |images| + 1, e)
  {}

  lemma LogAreaWrite(l: Layout, d: Disk, b: nat, v: Block, e: Disk)
    requires Empty(l, d, e) && l.start < b < l.start + l.size
    ensures Empty(l, d[b := v], e) && Recovers(l, d[b := v], e)
  {
    EmptyRecovers(l, d[b := v], e);
  }

  /** The first t header blocks are in the log area as the cache has them; home blocks are untouched. */
  predicate Copied(l: Layout, d: Disk, m: Disk, lh: seq<nat>, t: nat, d0: Disk, m0: Disk) {
    Empty(l, d, d0) && HomeEq(l, m, m0) && HeaderOk(l, lh) && t <= |lh| &&
    forall j :: 0 <= j < t ==> d[l.start + j + 1] == m[lh[j]]
  }

  lemma CopiedMore(l: Layout, d: Disk, m: Disk, lh: seq<nat>, t: nat, d0: Disk, m0: Disk)
    requires Copied(l, d, m, lh, t, d0, m0) && t < |lh|
    ensures var (b, v) := (l.start + t + 1, m[lh[t]]); Copied(l, d[b := v], m[b := v], lh, t + 1, d0, m0)
  {
    LogAreaWrite(l, d, l.start + t + 1, m[lh[t]], d0);
  }

  lemma HomeWrite(l: Layout, d: Disk, lh: seq<nat>, t: nat, e: Disk)
    requires Logged(l, d, lh, e) && t < |lh|
    ensures d[l.start + t + 1] == e[lh[t]]
    ensures Logged(l, d[lh[t] := e[lh[t]]], lh, e) && Recovers(l, d[lh[t] := e[lh[t]]], e)
  {
    InstallReplays(l, d, lh, e, t);
    LoggedRecovers(l, d[lh[t] := d[l.start + t + 1]], lh, e);
  }

  /** The first t blocks of lh are home. */
  predicate AtHome(d: Disk, lh: seq<nat>, t: nat, e: Disk) {
    |d| == |e| && t <= |lh| && forall j :: 0 <= j < t ==> lh[j] < |d| && d[lh[j]] == e[lh[j]]
  }

  lemma AtHomeMore(d: Disk, lh: seq<nat>, t: nat, e: Disk)
    requires AtHome(d, lh, t, e) && t < |lh| && lh[t] < |d|
    ensures AtHome(d[lh[t] := e[lh[t]]], lh, t + 1, e)
  {}

  /** What install_trans finds at its turn for block tail. */
  lemma InstallFacts(l: Layout, bs: seq<Buf>, d: Disk, m: Disk, lh: seq<nat>, tail: nat, left: seq<nat>, e: Disk,
                     b: nat)
    requires b == l.start + tail + 1 && Coherent(bs, d) && m == View(bs, d) && AllFree(bs) && Fits(l) &&
             |d| == l.nblocks && HeaderOk(l, lh)
    requires tail < |lh| && left == lh[tail..] && DirtyLogged(bs, left) && Logged(l, d, lh, e)
    ensures Home(l, lh[tail]) && b < |d| == |m| && b != lh[tail] && m[b] == d[b] == e[lh[tail]]
    ensures Logged(l, d[lh[tail] := e[lh[tail]]], lh, e) && Recovers(l, d[lh[tail] := e[lh[tail]]], e)
    ensures Roomy(bs, left) ==> TwoIdle(bs)
  {
    assert forall j :: tail <= j < |lh| ==> Home(l, lh[j]);
    CleanShowsDisk(bs, d, left, b);
    HomeWrite(l, d, lh, tail, e);
    if Roomy(bs, left) {
      RoomyTwo(bs, d, left);
    }
  }

  /** What write_log finds at its turn for block tail. */
  lemma WriteLogFacts(l: Layout, bs: seq<Buf>, d: Disk, lh: seq<nat>, tail: nat, v: Block, e: Disk)
    requires Coherent(bs, d) && AllFree(bs) && Fits(l) && |d| == l.nblocks && HeaderOk(l, lh)
    requires tail < |lh| && Pinned(bs, lh) && Empty(l, d, e)
    ensures Home(l, lh[tail]) && l.start + tail + 1 < |d| && l.start + tail + 1 !in lh && PinnedAt(bs, lh[tail])
    ensures Empty(l, d[l.start + tail + 1 := v], e) && Recovers(l, d[l.start + tail + 1 := v], e)
    ensures |lh| <= NBUF - 2 ==> TwoIdle(bs)
  {
    assert forall j :: 0 <= j < |lh| ==> Home(l, lh[j]);
    LogAreaWrite(l, d, l.start + tail + 1, v, e);
    if |lh| <= NBUF - 2 {
      RoomyTwo(bs, d, lh);
    }
  }

  /** Once the log area holds the blocks, the header write commits them. */
  lemma HeaderCommits(l: Layout, bs: seq<Buf>, d: Disk, lh: seq<nat>, hb: Block, d0: Disk, m0: Disk)
    requires Coherent(bs, d) && AllFree(bs) && Pinned(bs, lh) && Fits(l) && |d| == l.nblocks
    requires Copied(l, d, View(bs, d), lh, |lh|, d0, m0) && Get32(hb, 0) <= LOGSIZE && GetHeader(hb) == lh
    ensures Logged(l, d[l.start := hb], lh, m0) && Recovers(l, d[l.start := hb], m0)
  {
    forall b | 0 <= b < l.nblocks && b !in lh
      ensures View(bs, d)[b] == d[b]
    {
      CleanShowsDisk(bs, d, lh, b);
    }
    LoggedReplays(l, d, View(bs, d), lh, m0, hb);
    LoggedRecovers(l, d[l.start := hb], lh, m0);
  }

  lemma CleanedRoomy(bs: seq<Buf>, bs': seq<Buf>, lh: seq<nat>)
    requires lh != [] && Cleaned(bs, bs', lh[0]) && DirtyLogged(bs, lh)
    ensures DirtyLogged(bs', lh[1..]) && (Roomy(bs, lh) ==> Roomy(bs', lh[1..]))
  {
    CleanedLogged(bs, bs', lh);
  }

  class Log {
    const layout: Layout
    const cache: Cache
    const block: array<nat>
    var n: nat
    var outstanding: nat
    var committing: bool

    /** Everything but the state of the on-disk header. */
    ghost predicate Ready()
      reads this, cache, cache.bufs, block
    {
      cache.Valid() && block.Length == LOGSIZE && n <= LOGSIZE && Fits(layout) &&
      |cache.disk| == layout.nblocks && HeaderOk(layout, block[..n])
    }

    constructor (layout: Layout, disk: Disk)
      requires DiskOk(layout, disk)
      ensures Ready() && fresh(cache) && fresh(cache.bufs) && fresh(block)
      ensures this.layout == layout && cache.disk == disk && cache.images == [] && AllFree(cache.bufs[..])
      ensures n == 0 && outstanding == 0 && !committing && DirtyLogged(cache.bufs[..], [])
    {
      this.layout := layout;
      cache := new Cache(disk);
      block := new nat[LOGSIZE];
      n, outstanding, committing := 0, 0, false;
    }

    /** memmove into `to`, bwrite it, then brelse both buffers, the source first. */
    method Move(from: nat, to: nat)
      requires cache.Valid() && from < NBUF && to < NBUF && from != to
      requires cache.bufs[from].owner != 0 && cache.bufs[from].valid && cache.bufs[to].owner != 0 &&
               cache.bufs[to].valid
      requires cache.bufs[from].dirty || cache.bufs[from].data == cache.disk[cache.bufs[from].blockno]
      modifies cache, cache.bufs
      ensures cache.Valid() && cache.images == old(cache.images) + [cache.disk]
      ensures cache.disk == old(cache.disk[cache.bufs[to].blockno := cache.bufs[from].data])
      ensures cache.Mem() == old(cache.Mem()[cache.bufs[to].blockno := cache.bufs[from].data])
      ensures cache.bufs[from].owner == cache.bufs[to].owner == 0 && !cache.bufs[to].dirty
      ensures old(OnlyTwo(cache.bufs[..], from, to)) ==> AllFree(cache.bufs[..])
      ensures forall i :: 0 <= i < NBUF && i != from && i != to ==> SameBut(old(cache.bufs[i]), cache.bufs[i])
      ensures SameContent(old(cache.bufs[from]), cache.bufs[from]) &&
              cache.bufs[from].dirty == old(cache.bufs[from].dirty)
    {
      cache.SetData(to, cache.bufs[from].data);
      cache.Bwrite(to);
      assert cache.bufs[from].blockno != cache.bufs[to].blockno;
      cache.Brelse(from);
      cache.Brelse(to);
    }

    /** bread of two blocks; the buffers come back locked, with the dirty flags they had. */
    method ReadTwo(first: nat, second: nat) returns (x: nat, y: nat)
      requires cache.Valid() && first < |cache.disk| && second < |cache.disk| && first != second
      requires AllFree(cache.bufs[..])
      modifies cache.bufs
      ensures cache.Valid() && cache.Mem() == old(cache.Mem()) && x <= NBUF && y <= NBUF
      ensures y < NBUF ==> x < NBUF && x != y
      ensures y < NBUF ==> Held(cache.bufs[x], first, 1) && Held(cache.bufs[y], second, 1)
      ensures y < NBUF ==> cache.bufs[x].data == cache.Mem()[first] && cache.bufs[y].data == cache.Mem()[second]
      ensures y < NBUF ==> OnlyTwo(cache.bufs[..], x, y) && OnlyTwo(cache.bufs[..], y, x)
      ensures old(TwoIdle(cache.bufs[..])) ==> y < NBUF
      ensures Cleaned(old(cache.bufs[..]), cache.bufs[..], |cache.disk|)
    {
      ghost var bs := cache.bufs[..];
      y := NBUF;
      x := cache.Bread(first, 1);
      ghost var bs1 := cache.bufs[..];
      assert Took(bs, bs1, first, x);
      if x < NBUF {
        IdleLeft(bs, bs1, x);
        y := cache.Bread(second, 1);
        assert Took(bs1, cache.bufs[..], second, y);
        TookTwo(bs, bs1, cache.bufs[..], first, second, x, y, cache.disk);
      }
    }

    /**
     The body shared by write_log and install_trans: bread two blocks, copy one over the other. A bget
     panic leaves the contents of disk and cache as they were.
     */
    method Copy(first: nat, second: nat, intoFirst: bool) returns (ok: bool)
      requires cache.Valid() && first < |cache.disk| && second < |cache.disk| && first != second
      requires AllFree(cache.bufs[..])
      requires var from := if intoFirst then second else first;
               PinnedAt(cache.bufs[..], from) || cache.Mem()[from] == cache.disk[from]
      modifies cache, cache.bufs
      ensures cache.Valid() && (ok ==> AllFree(cache.bufs[..]))
      ensures ok ==> cache.images == old(cache.images) + [cache.disk]
      ensures ok && intoFirst ==>
                && cache.disk == old(cache.disk)[first := old(cache.Mem())[second]]
                && cache.Mem() == old(cache.Mem())[first := old(cache.Mem())[second]]
                && Cleaned(old(cache.bufs[..]), cache.bufs[..], first)
      ensures ok && !intoFirst ==>
                && cache.disk == old(cache.disk)[second := old(cache.Mem())[first]]
                && cache.Mem() == old(cache.Mem())[second := old(cache.Mem())[first]]
                && Cleaned(old(cache.bufs[..]), cache.bufs[..], second)
      ensures !ok ==>
                cache.disk == old(cache.disk) && cache.Mem() == old(cache.Mem()) && cache.images == old(cache.images)
      ensures old(TwoIdle(cache.bufs[..])) ==> ok
    {
      var x, y := ReadTwo(first, second);
      if y == NBUF {
        return false;
      }
      if intoFirst {
        Move(y, x);
      } else {
        Move(x, y);
      }
      ok := true;
    }

    method FillHeader(old_hb: Block) returns (hb: Block)
      requires block.Length == LOGSIZE && n <= LOGSIZE && forall i :: 0 <= i < n ==> block[i] < U32
      ensures hb == PutHeader(old_hb, block[..n])
    {
      hb := Put32(old_hb, 0, n);
      for i := 0 to n
        invariant hb == PutEntries(Put32(old_hb, 0, n), block[..n], i)
      {
        hb := Put32(hb, i + 1, block[i]);
      }
    }

    /** write_head: n, then n entries, into the header block in one bwrite. */
    method WriteHead() returns (ok: bool)
      requires Ready() && AllFree(cache.bufs[..])
      modifies cache, cache.bufs
      ensures Ready() && (ok ==> AllFree(cache.bufs[..]))
      ensures ok ==>
                && cache.disk == old(cache.disk)[layout.start := cache.disk[layout.start]]
                && cache.Mem() == old(cache.Mem())[layout.start := cache.disk[layout.start]]
                && Get32(cache.disk[layout.start], 0) == n && GetHeader(cache.disk[layout.start]) == block[..n]
                && cache.images == old(cache.images) + [cache.disk]
                && Cleaned(old(cache.bufs[..]), cache.bufs[..], layout.start)
      ensures !ok ==>
                cache.disk == old(cache.disk) && cache.Mem() == old(cache.Mem()) && cache.images == old(cache.images)
      ensures old(TwoIdle(cache.bufs[..])) ==> ok
    {
      var b := cache.Bread(layout.start, 1);
      if b == NBUF {
        return false;
      }
      assert forall i :: 0 <= i < n ==> block[i] == block[..n][i];
      var hb := FillHeader(cache.bufs[b].data);
      HeaderRoundTrip(cache.bufs[b].data, block[..n]);
      Store(b, hb);
      ok := true;
    }

    method Store(b: nat, v: Block)
      requires cache.Valid() && b < NBUF && cache.bufs[b].owner != 0 && cache.bufs[b].valid
      modifies cache, cache.bufs
      ensures cache.Valid() && cache.images == old(cache.images) + [cache.disk]
      ensures cache.disk == old(cache.disk[cache.bufs[b].blockno := v])
      ensures cache.Mem() == old(cache.Mem()[cache.bufs[b].blockno := v])
      ensures cache.bufs[b].owner == 0 && !cache.bufs[b].dirty && cache.bufs[b].refcnt == old(cache.bufs[b].refcnt) - 1
      ensures forall i :: 0 <= i < NBUF && i != b ==> SameBut(old(cache.bufs[i]), cache.bufs[i])
    {
      cache.SetData(b, v);
      cache.Bwrite(b);
      cache.Brelse(b);
    }

    method WriteLogBlock(tail: nat, ghost e: Disk) returns (ok: bool)
      requires Ready() && AllFree(cache.bufs[..]) && Pinned(cache.bufs[..], block[..n]) && tail < n
      requires Empty(layout, cache.disk, e)
      modifies cache, cache.bufs
      ensures Ready() && Empty(layout, cache.disk, e)
      ensures ok ==>
                && AllFree(cache.bufs[..]) && Pinned(cache.bufs[..], block[..n])
                && cache.disk == old(cache.disk[layout.start + tail + 1 := cache.Mem()[block[tail]]])
                && cache.Mem() == old(cache.Mem()[layout.start + tail + 1 := cache.Mem()[block[tail]]])
                && cache.images == old(cache.images) + [cache.disk] && Recovers(layout, cache.disk, e)
      ensures !ok ==>
                cache.disk == old(cache.disk) && cache.Mem() == old(cache.Mem()) && cache.images == old(cache.images)
      ensures n <= NBUF - 2 ==> ok
    {
      ghost var bs, lh, b := cache.bufs[..], block[..n], layout.start + tail + 1;
      assert block[tail] == lh[tail];
      WriteLogFacts(layout, bs, cache.disk, lh, tail, cache.Mem()[lh[tail]], e);
      ok := Copy(layout.start + tail + 1, block[tail], true);
      if ok {
        CleanedPins(bs, cache.bufs[..], lh, b);
      }
    }

    /** write_log: the cached contents of every header block go to the log area, one bwrite each. */
    method WriteLog() returns (ok: bool)
      requires Ready() && AllFree(cache.bufs[..]) && Pinned(cache.bufs[..], block[..n])
      requires Empty(layout, cache.disk, cache.disk)
      modifies cache, cache.bufs
      ensures Ready() && (ok ==> AllFree(cache.bufs[..]) && Pinned(cache.bufs[..], block[..n]))
      ensures ok ==> Copied(layout, cache.disk, cache.Mem(), block[..n], n, old(cache.disk), old(cache.Mem()))
      ensures old(cache.images) <= cache.images
      ensures AllRecover(layout, cache.images, |old(cache.images)|, |cache.images|, old(cache.disk))
      ensures n <= NBUF - 2 ==> ok
    {
      ghost var lh := block[..n];
      for tail := 0 to n
        invariant Ready() && AllFree(cache.bufs[..]) && Pinned(cache.bufs[..], lh)
        invariant Copied(layout, cache.disk, cache.Mem(), lh, tail, old(cache.disk), old(cache.Mem()))
        invariant old(cache.images) <= cache.images
        invariant AllRecover(layout, cache.images, |old(cache.images)|, |cache.images|, old(cache.disk))
      {
        ghost var images := cache.images;
        ok := WriteLogTurn(tail, old(cache.disk), old(cache.Mem()));
        if !ok {
          return;
        }
        RecoverMore(layout, images, |old(cache.images)|, cache.disk, old(cache.disk));
      }
      ok := true;
    }

    method WriteLogTurn(tail: nat, ghost d0: Disk, ghost m0: Disk) returns (ok: bool)
      requires Ready() && AllFree(cache.bufs[..]) && Pinned(cache.bufs[..], block[..n]) && tail < n
      requires Copied(layout, cache.disk, cache.Mem(), block[..n], tail, d0, m0)
      modifies cache, cache.bufs
      ensures Ready() && (n <= NBUF - 2 ==> ok)
      ensures ok ==> AllFree(cache.bufs[..]) && Pinned(cache.bufs[..], block[..n])
      ensures ok ==> Copied(layout, cache.disk, cache.Mem(), block[..n], tail + 1, d0, m0)
      ensures ok ==> cache.images == old(cache.images) + [cache.disk] && Recovers(layout, cache.disk, d0)
      ensures !ok ==> cache.images == old(cache.images)
    {
      ghost var lh := block[..n];
      assert block[tail] == lh[tail] && Home(layout, lh[tail]);
      CopiedMore(layout, cache.disk, cache.Mem(), lh, tail, d0, m0);
      ok := WriteLogBlock(tail, d0);
    }

    method InstallBlock(tail: nat, ghost e: Disk) returns (ok: bool)
      requires Ready() && AllFree(cache.bufs[..]) && tail < n && DirtyLogged(cache.bufs[..], block[tail..n])
      requires Logged(layout, cache.disk, block[..n], e)
      modifies cache, cache.bufs
      ensures Ready() && Logged(layout, cache.disk, block[..n], e)
      ensures ok ==>
                && AllFree(cache.bufs[..]) && DirtyLogged(cache.bufs[..], block[tail + 1..n])
                && cache.disk == old(cache.disk)[block[tail] := e[block[tail]]]
                && cache.images == old(cache.images) + [cache.disk] && Recovers(layout, cache.disk, e)
      ensures !ok ==> cache.disk == old(cache.disk) && cache.images == old(cache.images)
      ensures old(Roomy(cache.bufs[..], block[tail..n])) ==> ok && Roomy(cache.bufs[..], block[tail + 1..n])
    {
      ghost var bs, d, lh, left := cache.bufs[..], cache.disk, block[..n], block[tail..n];
      assert left[0] == block[tail] == lh[tail] && left[1..] == block[tail + 1..n];
      var b := layout.start + tail + 1;
      InstallFacts(layout, bs, d, cache.Mem(), lh, tail, left, e, b);
      ghost var home, v := lh[tail], e[lh[tail]];
      ok := Copy(b, block[tail], false);
      if ok {
        assert cache.disk == d[home := v];
        CleanedRoomy(bs, cache.bufs[..], left);
      }
    }

    /** install_trans: every logged block goes from the log area to its home, one bwrite each. */
    method InstallTrans(ghost e: Disk) returns (ok: bool)
      requires Ready() && AllFree(cache.bufs[..]) && DirtyLogged(cache.bufs[..], block[..n])
      requires Logged(layout, cache.disk, block[..n], e)
      modifies cache, cache.bufs
      ensures Ready() && Logged(layout, cache.disk, block[..n], e)
      ensures ok ==> AllFree(cache.bufs[..]) && DirtyLogged(cache.bufs[..], []) && HomeEq(layout, cache.disk, e)
      ensures old(cache.images) <= cache.images
      ensures AllRecover(layout, cache.images, |old(cache.images)|, |cache.images|, e)
      ensures old(Roomy(cache.bufs[..], block[..n])) ==> ok
    {
      ghost var lh := block[..n];
      assert block[0..n] == lh;
      ghost var roomy := Roomy(cache.bufs[..], lh);
      for tail := 0 to n
        invariant Ready() && AllFree(cache.bufs[..]) && DirtyLogged(cache.bufs[..], block[tail..n])
        invariant Logged(layout, cache.disk, lh, e)
        invariant AtHome(cache.disk, lh, tail, e) && (roomy ==> Roomy(cache.bufs[..], block[tail..n]))
        invariant old(cache.images) <= cache.images
        invariant AllRecover(layout, cache.images, |old(cache.images)|, |cache.images|, e)
      {
        ghost var images, d := cache.images, cache.disk;
        assert block[tail] == lh[tail];
        ok := InstallBlock(tail, e);
        if !ok {
          return;
        }
        AtHomeMore(d, lh, tail, e);
        RecoverMore(layout, images, |old(cache.images)|, cache.disk, e);
      }
      assert block[n..n] == [];
      InstalledAll(layout, cache.disk, lh, e);
      ok := true;
    }

    /** n = 0 and write_head: the transaction leaves the log. */
    method EraseHead(ghost e: Disk) returns (ok: bool)
      requires Ready() && AllFree(cache.bufs[..]) && DirtyLogged(cache.bufs[..], [])
      requires Logged(layout, cache.disk, block[..n], e) && HomeEq(layout, cache.disk, e)
      modifies this`n, cache, cache.bufs
      ensures Ready() && n == 0 && old(cache.images) <= cache.images
      ensures ok ==> Empty(layout, cache.disk, e) && AllFree(cache.bufs[..]) && DirtyLogged(cache.bufs[..], [])
      ensures AllRecover(layout, cache.images, |old(cache.images)|, |cache.images|, e) && ok
    {
      RoomyTwo(cache.bufs[..], cache.disk, []);
      n := 0;
      assert block[..0] == [];
      ok := WriteHead();
      if ok {
        assert Empty(layout, cache.disk, e);
        EmptyRecovers(layout, cache.disk, e);
      }
    }

    /** The second half of commit, once the header is on disk; also what recovery does after read_head. */
    method InstallAndErase(ghost e: Disk) returns (ok: bool)
      requires Ready() && AllFree(cache.bufs[..]) && DirtyLogged(cache.bufs[..], block[..n])
      requires Logged(layout, cache.disk, block[..n], e)
      modifies this`n, cache, cache.bufs
      ensures Ready() && old(cache.images) <= cache.images
      ensures ok ==>
                n == 0 && Empty(layout, cache.disk, e) && AllFree(cache.bufs[..]) && DirtyLogged(cache.bufs[..], [])
      ensures AllRecover(layout, cache.images, |old(cache.images)|, |cache.images|, e)
      ensures old(Roomy(cache.bufs[..], block[..n])) ==> ok
    {
      ok := InstallTrans(e);
      if ok {
        ok := EraseHead(e);
      }
    }

    /** write_log, then the write_head that commits: until it reaches disk a crash finds the old blocks. */
    method LogAndCommit() returns (ok: bool, ghost point: nat)
      requires Ready() && AllFree(cache.bufs[..]) && Pinned(cache.bufs[..], block[..n])
      requires Empty(layout, cache.disk, cache.disk)
      modifies cache, cache.bufs
      ensures Ready() && old(cache.images) <= cache.images && |old(cache.images)| <= point <= |cache.images|
      ensures ok ==> AllFree(cache.bufs[..]) && DirtyLogged(cache.bufs[..], block[..n]) && point < |cache.images|
      ensures ok ==> Logged(layout, cache.disk, block[..n], old(cache.Mem()))
      ensures AllRecover(layout, cache.images, |old(cache.images)|, point, old(cache.disk))
      ensures AllRecover(layout, cache.images, point, |cache.images|, old(cache.Mem()))
      ensures n <= NBUF - 2 ==> ok
    {
      ok := WriteLog();
      point := |cache.images|;
      if ok {
        ok := CommitHead(old(cache.disk), old(cache.Mem()));
      }
    }

    /** The write_head that commits the blocks in the log area. */
    method CommitHead(ghost d0: Disk, ghost m0: Disk) returns (ok: bool)
      requires Ready() && AllFree(cache.bufs[..]) && Pinned(cache.bufs[..], block[..n])
      requires Copied(layout, cache.disk, cache.Mem(), block[..n], n, d0, m0)
      modifies cache, cache.bufs
      ensures Ready() && (n <= NBUF - 2 ==> ok)
      ensures ok ==> AllFree(cache.bufs[..]) && DirtyLogged(cache.bufs[..], block[..n])
      ensures ok ==> Logged(layout, cache.disk, block[..n], m0) && Recovers(layout, cache.disk, m0)
      ensures cache.images == old(cache.images) + if ok then [cache.disk] else []
    {
      ghost var bs, d, lh := cache.bufs[..], cache.disk, block[..n];
      if n <= NBUF - 2 {
        RoomyTwo(bs, d, lh);
      }
      ok := WriteHead();
      if ok {
        HeaderCommits(layout, bs, d, lh, cache.disk[layout.start], d0, m0);
        CleanedPins(bs, cache.bufs[..], lh, layout.start);
      }
    }

    /**
     commit. At whatever block write the machine stops, recovery yields the blocks as they were on disk
     (before `point`) or all of them as the cache had them (from `point` on), nothing in between; if it
     runs to the end, the disk holds the latter and the log is empty.
     */
    method Commit() returns (ok: bool, ghost point: nat)
      requires Ready() && AllFree(cache.bufs[..]) && Pinned(cache.bufs[..], block[..n])
      requires Empty(layout, cache.disk, cache.disk)
      modifies this`n, cache, cache.bufs
      ensures Ready() && old(cache.images) <= cache.images && |old(cache.images)| <= point <= |cache.images|
      ensures AllRecover(layout, cache.images, |old(cache.images)|, point, old(cache.disk))
      ensures AllRecover(layout, cache.images, point, |cache.images|, old(cache.Mem()))
      ensures ok ==> n == 0 && Empty(layout, cache.disk, old(cache.Mem())) && AllFree(cache.bufs[..])
      ensures ok ==> DirtyLogged(cache.bufs[..], [])
      ensures old(n) <= NBUF - 2 ==> ok
    {
      if n > 0 {
        ok, point := LogAndCommit();
        if ok {
          ghost var images := cache.images;
          ok := InstallAndErase(old(cache.Mem()));
          assert cache.images[..|images|] == images;
        }
      } else {
        assert block[..n] == [];
        forall b | 0 <= b < layout.nblocks
          ensures cache.Mem()[b] == cache.disk[b]
        {
          CleanShowsDisk(cache.bufs[..], cache.disk, [], b);
        }
        ok, point := true, |cache.images|;
      }
    }

    /** One pass of begin_op's loop under log.lock: admit the operation, or leave it to sleep. */
    method BeginOp() returns (admitted: bool)
      requires Ready()
      modifies this`outstanding
      ensures Ready() && outstanding == old(outstanding) + (if admitted then 1 else 0)
      ensures admitted <==> !committing && n + (old(outstanding) + 1) * MAXOPBLOCKS <= LOGSIZE
    {
      admitted := !committing && n + (outstanding + 1) * MAXOPBLOCKS <= LOGSIZE;
      if admitted {
        outstanding := outstanding + 1;
      }
    }

    /** The loop of log_write: the slot that already has the block, else the first free one. */
    method Slot(blockno: nat) returns (i: nat)
      requires block.Length == LOGSIZE && n <= LOGSIZE
      ensures i <= n && (i < n ==> block[i] == blockno) && (i == n ==> blockno !in block[..n])
    {
      i := 0;
      while i < n && block[i] != blockno
        invariant i <= n && blockno !in block[..i]
      {
        i := i + 1;
      }
    }

    /**
     log_write by the holder of buffer b: panic when the header is full, else record the block once and
     pin the buffer. The dirty buffers stay exactly those of the header's blocks.
     */
    method LogWrite(b: nat) returns (ok: bool)
      requires Ready() && Pinned(cache.bufs[..], block[..n])
      requires b < NBUF && cache.bufs[b].owner != 0 && cache.bufs[b].valid && Home(layout, cache.bufs[b].blockno)
      modifies this`n, block, cache.bufs
      ensures Ready() && Pinned(cache.bufs[..], block[..n]) && cache.Mem() == old(cache.Mem())
      ensures ok <==> old(n) < LOGSIZE && old(n) < layout.size - 1 && outstanding >= 1
      ensures ok ==> block[..n] == Absorb(old(block[..n]), cache.bufs[b].blockno)
      ensures ok ==> cache.bufs[b] == old(cache.bufs[b]).(dirty := true)
      ensures !ok ==> block[..n] == old(block[..n])
      ensures forall i :: 0 <= i < NBUF && i != b ==> cache.bufs[i] == old(cache.bufs[i])
    {
      if n >= LOGSIZE || n >= layout.size - 1 || outstanding < 1 {
        return false;
      }
      ghost var (bs, lh, blockno) := (cache.bufs[..], block[..n], cache.bufs[b].blockno);
      var i := Slot(cache.bufs[b].blockno);
      block[i] := cache.bufs[b].blockno;
      if i == n {
        n := n + 1;
      }
      assert block[..n] == Absorb(lh, blockno);
      cache.Pin(b);
      PinOne(bs, cache.bufs[..], lh, b);
      ok := true;
    }

    /** end_op: the last outstanding operation commits the whole group. */
    method EndOp() returns (ok: bool, ghost point: nat)
      requires Ready() && outstanding >= 1 && !committing && Pinned(cache.bufs[..], block[..n])
      requires outstanding == 1 ==> AllFree(cache.bufs[..]) && Empty(layout, cache.disk, cache.disk)
      modifies this, cache, cache.bufs
      ensures Ready() && outstanding == old(outstanding) - 1 && old(cache.images) <= cache.images
      ensures |old(cache.images)| <= point <= |cache.images|
      ensures outstanding > 0 ==>
              ok && cache.disk == old(cache.disk) && cache.images == old(cache.images) && n == old(n)
      ensures outstanding == 0 ==> AllRecover(layout, cache.images, |old(cache.images)|, point, old(cache.disk))
      ensures outstanding == 0 ==> AllRecover(layout, cache.images, point, |cache.images|, old(cache.Mem()))
      ensures outstanding == 0 && ok ==> n == 0 && !committing && Empty(layout, cache.disk, old(cache.Mem()))
      ensures outstanding == 0 && ok ==> AllFree(cache.bufs[..]) && Pinned(cache.bufs[..], block[..n])
      ensures outstanding > 0 ==>
                cache.bufs[..] == old(cache.bufs[..]) && cache.Mem() == old(cache.Mem()) && !committing
      ensures old(n) <= NBUF - 2 ==> ok
    {
      outstanding := outstanding - 1;
      ok, point := true, |cache.images|;
      if outstanding == 0 {
        committing := true;
        ok, point := Commit();
        if ok {
          committing := false;
        }
      }
    }

    method LoadHeader(hb: Block)
      requires block.Length == LOGSIZE && Get32(hb, 0) <= LOGSIZE
      modifies this`n, block
      ensures n == Get32(hb, 0) && block[..n] == GetHeader(hb)
    {
      n := Get32(hb, 0);
      for i := 0 to n
        invariant n == Get32(hb, 0)
        invariant forall j :: 0 <= j < i ==> block[j] == Get32(hb, j + 1)
      {
        block[i] := Get32(hb, i + 1);
      }
    }

    /**
     recover_from_log on a machine that has just come up. Wherever it is interrupted, the next recovery
     yields the same blocks; if it runs to the end they are home and the log is empty.
     */
    method RecoverFromLog() returns (ok: bool)
      requires Ready() && AllFree(cache.bufs[..]) && DirtyLogged(cache.bufs[..], [])
      requires DiskOk(layout, cache.disk)
      modifies this`n, block, cache, cache.bufs
      ensures old(cache.images) <= cache.images
      ensures AllRecover(layout, cache.images, |old(cache.images)|, |cache.images|, old(Recover(layout, cache.disk)))
      ensures ok && Ready() && n == 0 && Empty(layout, cache.disk, old(Recover(layout, cache.disk)))
      ensures AllFree(cache.bufs[..]) && DirtyLogged(cache.bufs[..], [])
    {
      ghost var e := Recover(layout, cache.disk);
      RecoverReplays(layout, cache.disk);
      ReadHead();
      ok := InstallAndErase(e);
    }

    /** read_head of a machine that has just come up. */
    method ReadHead()
      requires Ready() && AllFree(cache.bufs[..]) && DirtyLogged(cache.bufs[..], []) && DiskOk(layout, cache.disk)
      modifies this`n, block, cache`order, cache`stamp, cache`clock, cache.bufs
      ensures Ready() && AllFree(cache.bufs[..]) && DirtyLogged(cache.bufs[..], [])
      ensures block[..n] == GetHeader(cache.disk[layout.start])
    {
      RoomyTwo(cache.bufs[..], cache.disk, []);
      CleanShowsDisk(cache.bufs[..], cache.disk, [], layout.start);
      var b := cache.Bread(layout.start, 1);
      LoadHeader(cache.bufs[b].data);
      cache.Brelse(b);
    }
  }

  lemma InstalledAll(l: Layout, d: Disk, lh: seq<nat>, e: Disk)
    requires Logged(l, d, lh, e) && AtHome(d, lh, |lh|, e)
    ensures HomeEq(l, d, e)
  {
    forall b | 0 <= b < l.nblocks && Home(l, b)
      ensures d[b] == e[b]
    {
      if b in lh {
        var j :| 0 <= j < |lh| && lh[j] == b;
      }
    }
  }
}
