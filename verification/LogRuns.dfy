/**
 Runs of the code in log.c: any sequence of begin_op, of blocks read, changed, passed to log_write and
 released, and of end_op, from boot on. They refine a store that commits whole groups of operations, and
 every disk image on the way recovers to one of its commits.
 */
module LogRuns {
  import opened Keys
  import opened Blocks
  import opened Bio
  import opened BufferCache
  import opened LogProtocol
  import opened RedoLog

  // ---------- the specification ----------

  /** What is committed, what the operations see, the blocks they have changed, and how many are open. */
  datatype Store = Store(durable: Disk, pending: Disk, changed: seq<nat>, open: nat)

  function Fresh(d: Disk): Store {
    Store(d, d, [], 0)
  }

  datatype Call =
    | Enter                   // begin_op, which sleeps if the operation does not fit
    | Edit(b: nat, v: Block)  // bread, store, log_write, brelse
    | Leave                   // end_op

  /** A block is changed and an operation ended only inside an operation. */
  predicate Legal(l: Layout, st: Store, c: Call) {
    match c
    case Enter => true
    case Edit(b, _) => st.open > 0 && Home(l, b)
    case Leave => st.open > 0
  }

  predicate Admits(st: Store) {
    |st.changed| + (st.open + 1) * MAXOPBLOCKS <= LOGSIZE
  }

  function After(st: Store, c: Call): Store {
    match c
    case Enter => if Admits(st) then st.(open := st.open + 1) else st
    case Edit(b, v) =>
      if b < |st.pending| then st.(pending := st.pending[b := v], changed := Absorb(st.changed, b)) else st
    case Leave => if st.open > 1 then st.(open := st.open - 1) else Store(st.pending, st.pending, [], 0)
  }

  function AfterAll(st: Store, cs: seq<Call>): Store {
    if cs == [] then st else After(AfterAll(st, cs[..|cs| - 1]), cs[|cs| - 1])
  }

  predicate LegalAll(l: Layout, st: Store, cs: seq<Call>) {
    cs == [] || (LegalAll(l, st, cs[..|cs| - 1]) && Legal(l, AfterAll(st, cs[..|cs| - 1]), cs[|cs| - 1]))
  }

  /** The stores committed in turn, from the one at the start on. */
  function Commits(st: Store, cs: seq<Call>): (r: seq<Disk>)
    ensures |r| > 0 && r[0] == st.durable && r[|r| - 1] == AfterAll(st, cs).durable
  {
    if cs == [] then [st.durable] else
      var (front, c) := (cs[..|cs| - 1], cs[|cs| - 1]);
      var before := AfterAll(st, front);
      Commits(st, front) + if c.Leave? && before.open <= 1 then [before.pending] else []
  }

  lemma {:induction false} LegalPrefix(l: Layout, st: Store, cs: seq<Call>, n: nat)
    requires LegalAll(l, st, cs) && n <= |cs|
    ensures LegalAll(l, st, cs[..n]) && Commits(st, cs[..n]) <= Commits(st, cs)
  {
    if n < |cs| {
      LegalPrefix(l, st, cs[..|cs| - 1], n);
      assert cs[..|cs| - 1][..n] == cs[..n];
    } else {
      assert cs[..n] == cs;
    }
  }

  lemma NextCall(l: Layout, st: Store, cs: seq<Call>, n: nat)
    requires LegalAll(l, st, cs) && n < |cs|
    ensures var (now, c) := (AfterAll(st, cs[..n]), cs[n]);
            && Legal(l, now, c) && AfterAll(st, cs[..n + 1]) == After(now, c)
            && Commits(st, cs[..n + 1]) ==
               Commits(st, cs[..n]) + if c.Leave? && now.open <= 1 then [now.pending] else []
    ensures Commits(st, cs[..n + 1]) <= Commits(st, cs)
  {
    assert cs[..n + 1][..n] == cs[..n];
    LegalPrefix(l, st, cs, n + 1);
  }

  // ---------- what a crash can find ----------

  /** Image from + i recovers to store at[i], and later images to the same store or a later one. */
  ghost predicate Shown(l: Layout, images: seq<Disk>, from: nat, stores: seq<Disk>, at: seq<nat>) {
    && from + |at| == |images| && (forall i :: 0 <= i < |at| ==> at[i] < |stores|)
    && (forall i :: 0 <= i < |at| ==> Recovers(l, images[from + i], stores[at[i]]))
    && forall i, j :: 0 <= i < j < |at| ==> at[i] <= at[j]
  }

  lemma ShownLonger(l: Layout, images: seq<Disk>, from: nat, stores: seq<Disk>, stores': seq<Disk>, at: seq<nat>)
    requires Shown(l, images, from, stores, at) && stores <= stores'
    ensures Shown(l, images, from, stores', at)
  {
  }

  lemma HomeRecovers(l: Layout, images: seq<Disk>, i: nat, j: nat, d: Disk, e: Disk)
    requires AllRecover(l, images, i, j, d) && HomeEq(l, d, e)
    ensures AllRecover(l, images, i, j, e)
  {
  }

  /** A commit adds images that recover to the last store, up to some point, and to the next one from there on. */
  lemma ShownCommit(l: Layout, images: seq<Disk>, images': seq<Disk>, from: nat, stores: seq<Disk>, at: seq<nat>,
                    next: Disk, point: nat) returns (at': seq<nat>)
    requires Shown(l, images, from, stores, at) && images <= images' && |images| <= point <= |images'| && stores != []
    requires AllRecover(l, images', |images|, point, stores[|stores| - 1])
    requires AllRecover(l, images', point, |images'|, next)
    ensures Shown(l, images', from, stores + [next], at') && at <= at'
  {
    var k := |stores|;
    at' := at + seq(|images'| - |images|, i => if |images| + i < point then k - 1 else k);
    forall i | 0 <= i < |at'|
      ensures Recovers(l, images'[from + i], (stores + [next])[at'[i]])
    {
      if i < |at| {
        assert images'[from + i] == images[from + i];
      }
    }
  }

  // ---------- the code ----------

  /** Between calls: the log and the cache hold what the store says, and nobody has a buffer. */
  ghost predicate Serving(log: Log, st: Store)
    reads log, log.cache, log.cache.bufs, log.block
  {
    forall k {:trigger See(k)} :: k == WITHIN ==> ServingNow(log, st)
  }

  ghost predicate ServingNow(log: Log, st: Store)
    reads log, log.cache, log.cache.bufs, log.block
  {
    && log.Ready() && AllFree(log.cache.bufs[..]) && Pinned(log.cache.bufs[..], log.block[..log.n])
    && Empty(log.layout, log.cache.disk, st.durable) && HomeEq(log.layout, log.cache.Mem(), st.pending)
    && log.block[..log.n] == st.changed && log.outstanding == st.open && !log.committing
  }

  /** Buffers that differ in locks, references and links only pin the same blocks. */
  lemma SamePins(bs: seq<Buf>, bs': seq<Buf>, lh: seq<nat>)
    requires Pinned(bs, lh) && |bs'| == NBUF + 1
    requires forall i :: 0 <= i < NBUF ==> bs'[i].dirty == bs[i].dirty
    requires forall i :: 0 <= i < NBUF && bs[i].dirty ==> bs'[i].blockno == bs[i].blockno && bs'[i].dev == bs[i].dev
    ensures Pinned(bs', lh)
  {
    forall k | 0 <= k < |lh|
      ensures PinnedAt(bs', lh[k])
    {
      var i :| 0 <= i < NBUF && Holds(bs[i], lh[k]) && bs[i].dirty;
      assert Holds(bs'[i], lh[k]) && bs'[i].dirty;
    }
  }

  /** With a block fewer in the header than there are buffers, one can be recycled. */
  lemma SomeIdle(bs: seq<Buf>, disk: seq<Block>, lh: seq<nat>)
    requires Coherent(bs, disk) && AllFree(bs) && DirtyLogged(bs, lh) && |lh| < NBUF
    ensures exists i :: 0 <= i < NBUF && Idle(bs[i])
  {
    var blocks := BlocksOf(lh);
    var i := OneClean(bs, disk, blocks, NBUF);
    assert Idle(bs[i]);
  }

  /** bread of a block nobody has locked. */
  method Take(log: Log, b: nat) returns (x: nat)
    requires log.Ready() && AllFree(log.cache.bufs[..]) && Pinned(log.cache.bufs[..], log.block[..log.n])
    requires b < |log.cache.disk|
    modifies log.cache.bufs
    ensures log.Ready() && Pinned(log.cache.bufs[..], log.block[..log.n]) && log.cache.Mem() == old(log.cache.Mem())
    ensures x <= NBUF && (x == NBUF ==> log.n >= NBUF)
    ensures x < NBUF ==> Held(log.cache.bufs[x], b, 1) && log.cache.bufs[x].refcnt == 1
    ensures x < NBUF ==>
              forall i :: 0 <= i < NBUF && i != x ==> log.cache.bufs[i].owner == log.cache.bufs[i].refcnt == 0
  {
    ghost var bs, lh := log.cache.bufs[..], log.block[..log.n];
    if log.n < NBUF {
      SomeIdle(bs, log.cache.disk, lh);
    }
    x := log.cache.Bread(b, 1);
    SamePins(bs, log.cache.bufs[..], lh);
  }

  /** brelse of the only buffer in use. */
  method Drop(log: Log, x: nat)
    requires log.Ready() && Pinned(log.cache.bufs[..], log.block[..log.n]) && x < NBUF
    requires log.cache.bufs[x].owner != 0 && log.cache.bufs[x].dirty && log.cache.bufs[x].refcnt == 1
    requires forall i :: 0 <= i < NBUF && i != x ==> log.cache.bufs[i].owner == log.cache.bufs[i].refcnt == 0
    modifies log.cache`order, log.cache`stamp, log.cache`clock, log.cache.bufs
    ensures log.Ready() && AllFree(log.cache.bufs[..]) && Pinned(log.cache.bufs[..], log.block[..log.n])
    ensures log.cache.Mem() == old(log.cache.Mem())
  {
    ghost var bs := log.cache.bufs[..];
    log.cache.Brelse(x);
    SamePins(bs, log.cache.bufs[..], log.block[..log.n]);
  }

  /** A block read, changed, logged and released. */
  method Change(log: Log, b: nat, v: Block) returns (ok: bool)
    requires log.Ready() && AllFree(log.cache.bufs[..]) && Pinned(log.cache.bufs[..], log.block[..log.n])
    requires log.outstanding >= 1 && Home(log.layout, b)
    modifies log`n, log.block, log.cache`order, log.cache`stamp, log.cache`clock, log.cache.bufs
    ensures ok ==> log.Ready() && AllFree(log.cache.bufs[..]) && Pinned(log.cache.bufs[..], log.block[..log.n])
    ensures if ok then log.block[..log.n] == Absorb(old(log.block[..log.n]), b) else old(log.n) > NBUF - 2
    ensures ok ==> log.cache.Mem() == old(log.cache.Mem())[b := v]
  {
    var x := Take(log, b);
    if x == NBUF {
      return false;
    }
    ghost var bs := log.cache.bufs[..];
    log.cache.SetData(x, v);
    SamePins(bs, log.cache.bufs[..], log.block[..log.n]);
    ok := log.LogWrite(x);
    if ok {
      Drop(log, x);
    }
  }

  method ChangeIn(log: Log, b: nat, v: Block, ghost st: Store) returns (ok: bool)
    requires Serving(log, st) && Legal(log.layout, st, Edit(b, v))
    modifies log`n, log.block, log.cache`order, log.cache`stamp, log.cache`clock, log.cache.bufs
    ensures if ok then Serving(log, After(st, Edit(b, v))) else |st.changed| > NBUF - 2
  {
    assert See(WITHIN);
    ok := Change(log, b, v);
    assert ok ==> ServingNow(log, After(st, Edit(b, v)));
  }

  /** end_op, with what its images recover to. */
  method Close(log: Log, ghost st: Store, ghost from: nat, ghost stores: seq<Disk>, ghost at: seq<nat>)
      returns (ok: bool, ghost at': seq<nat>)
    requires Serving(log, st) && Legal(log.layout, st, Leave)
    requires Shown(log.layout, log.cache.images, from, stores, at) && stores != [] && stores[|stores| - 1] == st.durable
    modifies log, log.cache, log.cache.bufs
    ensures Shown(log.layout, log.cache.images, from, stores + if st.open <= 1 then [st.pending] else [], at')
    ensures old(log.cache.images) <= log.cache.images
    ensures if ok then Serving(log, After(st, Leave)) else |st.changed| > NBUF - 2
  {
    assert See(WITHIN);
    ghost var l, images, disk, mem := log.layout, log.cache.images, log.cache.disk, log.cache.Mem();
    ghost var point;
    ok, point := log.EndOp();
    at' := at;
    if st.open == 1 {
      HomeRecovers(l, log.cache.images, |images|, point, disk, st.durable);
      HomeRecovers(l, log.cache.images, point, |log.cache.images|, mem, st.pending);
      at' := ShownCommit(l, images, log.cache.images, from, stores, at, st.pending, point);
      if ok {
        Quiet(l, log.cache.bufs[..], log.cache.disk, mem, st.pending);
      }
    }
    assert ok ==> ServingNow(log, After(st, Leave));
  }

  /** With no block pinned the cache shows the disk. */
  lemma Quiet(l: Layout, bs: seq<Buf>, disk: Disk, e: Disk, e': Disk)
    requires Coherent(bs, disk) && AllFree(bs) && DirtyLogged(bs, []) && Empty(l, disk, e) && HomeEq(l, e, e')
    ensures View(bs, disk) == disk && Empty(l, disk, e')
  {
    forall b | 0 <= b < |disk|
      ensures View(bs, disk)[b] == disk[b]
    {
      CleanShowsDisk(bs, disk, [], b);
    }
  }

  method Admit(log: Log, ghost st: Store)
    requires Serving(log, st)
    modifies log`outstanding
    ensures Serving(log, After(st, Enter))
  {
    assert See(WITHIN);
    var admitted := log.BeginOp();
    assert ServingNow(log, After(st, Enter));
  }

  method Step(log: Log, c: Call, ghost st: Store, ghost from: nat, ghost stores: seq<Disk>, ghost at: seq<nat>)
      returns (ok: bool, ghost at': seq<nat>)
    requires Serving(log, st) && Legal(log.layout, st, c)
    requires Shown(log.layout, log.cache.images, from, stores, at) && stores != [] && stores[|stores| - 1] == st.durable
    modifies log, log.block, log.cache, log.cache.bufs
    ensures Shown(log.layout, log.cache.images, from,
                  stores + if c.Leave? && st.open <= 1 then [st.pending] else [], at')
    ensures old(log.cache.images) <= log.cache.images
    ensures if ok then Serving(log, After(st, c)) else |st.changed| > NBUF - 2
  {
    ok, at' := true, at;
    match c
    case Enter =>
      Admit(log, st);
    case Edit(b, v) =>
      ok := ChangeIn(log, b, v, st);
    case Leave =>
      ok, at' := Close(log, st, from, stores, at);
  }

  /**
   Any sequence of calls: the log and the cache end as the store does, and every disk image on the way
   recovers to a committed store, in the order of the commits. The code stops early only when the
   operations of one group have changed more than NBUF - 2 blocks.
   */
  method Serve(log: Log, cs: seq<Call>, ghost st: Store) returns (done: nat, ghost at: seq<nat>)
    requires Serving(log, st) && LegalAll(log.layout, st, cs)
    modifies log, log.block, log.cache, log.cache.bufs
    ensures old(log.cache.images) <= log.cache.images && done <= |cs|
    ensures Shown(log.layout, log.cache.images, |old(log.cache.images)|, Commits(st, cs), at)
    ensures if done == |cs| then Serving(log, AfterAll(st, cs)) else |AfterAll(st, cs[..done]).changed| > NBUF - 2
  {
    ghost var from := |log.cache.images|;
    at, done := [], 0;
    assert cs[..0] == [];
    while done < |cs|
      invariant done <= |cs| && Serving(log, AfterAll(st, cs[..done]))
      invariant Shown(log.layout, log.cache.images, from, Commits(st, cs[..done]), at)
      invariant old(log.cache.images) <= log.cache.images
    {
      NextCall(log.layout, st, cs, done);
      ghost var now, stores := AfterAll(st, cs[..done]), Commits(st, cs[..done]);
      var ok;
      ok, at := Step(log, cs[done], now, from, stores, at);
      if !ok {
        ShownLonger(log.layout, log.cache.images, from, Commits(st, cs[..done + 1]), Commits(st, cs), at);
        return;
      }
      done := done + 1;
    }
    assert cs[..done] == cs;
  }

  /** Images that recover to the first store, before the others. */
  lemma ShownAfter(l: Layout, images: seq<Disk>, images': seq<Disk>, e: Disk, stores: seq<Disk>, at: seq<nat>)
    returns (at': seq<nat>)
    requires AllRecover(l, images, 0, |images|, e) && images <= images' && stores != [] && stores[0] == e
    requires Shown(l, images', |images|, stores, at)
    ensures Shown(l, images', 0, stores, at')
  {
    at' := seq(|images|, i => 0) + at;
    forall i | 0 <= i < |at'|
      ensures Recovers(l, images'[i], stores[at'[i]])
    {
      if i < |images| {
        assert images'[i] == images[i];
      } else {
        assert at'[i] == at[i - |images|] && images'[i] == images'[|images| + (i - |images|)];
      }
    }
  }

  /** From any disk with a sound log: recovery, then the calls. */
  method Boot(layout: Layout, disk: Disk, cs: seq<Call>) returns (log: Log, done: nat, ghost at: seq<nat>)
    requires DiskOk(layout, disk)
    requires LegalAll(layout, Fresh(Recover(layout, disk)), cs)
    ensures log.layout == layout && done <= |cs|
    ensures var st := Fresh(Recover(layout, disk));
            && Shown(layout, log.cache.images, 0, Commits(st, cs), at)
            && if done == |cs| then Serving(log, AfterAll(st, cs)) else |AfterAll(st, cs[..done]).changed| > NBUF - 2
  {
    ghost var e := Recover(layout, disk);
    log := new Log(layout, disk);
    var ok := log.RecoverFromLog();
    Quiet(layout, log.cache.bufs[..], log.cache.disk, e, e);
    assert ServingNow(log, Fresh(e));
    ghost var images := log.cache.images;
    done, at := Serve(log, cs, Fresh(e));
    at := ShownAfter(layout, images, log.cache.images, e, Commits(Fresh(e), cs), at);
  }
}
