/** vm.c and kalloc.c: building, growing, shrinking, copying and freeing address spaces. */
module VirtualMemory {
  import opened Wrappers
  import opened Words
  import opened Keys
  import opened Sets
  import opened Paging

  /** The pages that a bytes need. */
  function Ceil(a: nat): nat { (a + PGSIZE - 1) / PGSIZE }

  function RoundUp(a: nat): nat { Ceil(a) * PGSIZE }

  function RoundDown(a: nat): nat { a / PGSIZE * PGSIZE }

  lemma PageNumber(k: nat)
    ensures k * PGSIZE / PGSIZE == k && RoundDown(k * PGSIZE) == k * PGSIZE
  {
  }

  lemma CeilLess(v: nat, sz: nat)
    ensures v * PGSIZE < sz <==> v < Ceil(sz)
  {
  }

  lemma CeilBase()
    ensures Ceil(0) == 0 && Ceil(KERNBASE) == USERPAGES
  {
  }

  /** b' is b after a page-by-page release of pages lo .. hi - 1. */
  predicate Dropped(b: Books, lo: nat, hi: nat, b': Books) {
    lo <= hi <= PAGES && b' == DropPages(b, lo, hi - lo)
  }

  lemma CeilMono(a: nat, b: nat)
    requires a <= b <= KERNBASE
    ensures Ceil(a) <= Ceil(b) <= USERPAGES
  {
  }

  /** A directory entry that is absent has no pages. */
  lemma AbsentTable(m: Memory, d: nat, v: nat)
    requires d < FRAMES && v < PAGES && !Present(m[d][v / ENTRIES])
    ensures v < (v / ENTRIES + 1) * ENTRIES <= PAGES
    ensures forall u :: v <= u < (v / ENTRIES + 1) * ENTRIES ==> !Present(View(m, d)[u])
  {
    forall u | v <= u < (v / ENTRIES + 1) * ENTRIES
      ensures !Present(View(m, d)[u])
    {
      assert u / ENTRIES == v / ENTRIES;
    }
  }

  /** mappages' first and last page addresses. */
  method Bounds(va: Word, size: Word, ghost lo: nat, ghost count: nat) returns (a: nat, last: nat)
    requires 0 < count && lo + count <= PAGES && va == lo * PGSIZE && size == count * PGSIZE
    ensures a == lo * PGSIZE && last == (lo + count - 1) * PGSIZE
  {
    assert (lo + count) * PGSIZE <= U32;
    assert (lo * PGSIZE + count * PGSIZE - 1) / PGSIZE == lo + count - 1;
    a, last := RoundDown(va), RoundDown((va + size - 1) % U32);
  }

  /** memset(v, 1, PGSIZE) */
  function JunkPage(): Page { seq(ENTRIES, _ => 0x0101_0101) }

  function FilledAt(view: Entries, lo: nat, n: nat, p: nat, perm: nat, u: nat): Word
    requires lo + n <= PAGES && p + n <= PAGES && perm < PGSIZE && u < PAGES
  {
    if lo <= u < lo + n then Entry(p + (u - lo), perm) else view[u]
  }

  /** The n pages from lo mapped to the n frames from p. */
  function Filled(view: Entries, lo: nat, n: nat, p: nat, perm: nat): Entries
    requires lo + n <= PAGES && p + n <= PAGES && perm < PGSIZE
  {
    seq(PAGES, u requires 0 <= u < PAGES => FilledAt(view, lo, n, p, perm, u))
  }

  lemma FilledNone(view: Entries, lo: nat, p: nat, perm: nat)
    requires lo <= PAGES && p <= PAGES && perm < PGSIZE
    ensures Filled(view, lo, 0, p, perm) == view
  {
  }

  lemma FilledStep(view: Entries, lo: nat, n: nat, p: nat, perm: nat, v: nat, f: nat)
    requires v == lo + n < PAGES && f == p + n < PAGES && perm < PGSIZE
    ensures Filled(view, lo, n + 1, p, perm) == Filled(view, lo, n, p, perm)[v := Entry(f, perm)]
  {
  }

  /** Outside the free frames and the tables, nothing changed. */
  predicate Kept(m: Memory, m': Memory, pool: set<nat>, own: Owner) {
    forall f :: 0 <= f < FRAMES && f !in pool && (f in own ==> own[f].User?) ==> m'[f] == m[f]
  }

  predicate Extends(own: Owner, own': Owner) {
    forall f <- own :: f in own' && own'[f] == own[f]
  }

  /** From free frames and extra, the space grew by tables and extra. */
  predicate Grown(m: Memory, pool: set<nat>, own: Owner, m': Memory, pool': set<nat>, own': Owner, extra: set<nat>) {
    && Kept(m, m', pool, own) && Extends(own, own')
    && own'.Keys + pool' == own.Keys + pool + extra
    && forall f <- own' :: f in own || own'[f].Table? || f in extra
  }

  lemma GrownTrans(m0: Memory, pool0: set<nat>, own0: Owner, m1: Memory, pool1: set<nat>, own1: Owner,
                   m2: Memory, pool2: set<nat>, own2: Owner, x: set<nat>, y: set<nat>)
    requires Grown(m0, pool0, own0, m1, pool1, own1, x) && Grown(m1, pool1, own1, m2, pool2, own2, y)
    requires own1.Keys !! pool1 && forall f <- x :: f in own1 && own1[f].User?
    ensures Grown(m0, pool0, own0, m2, pool2, own2, x + y)
  {
    forall f | 0 <= f < FRAMES && f !in pool0 && (f in own0 ==> own0[f].User?)
      ensures m2[f] == m0[f]
    {
      assert f in own1.Keys + pool1 <==> f in own0.Keys + pool0 + x;
    }
  }

  lemma GrownMore(m0: Memory, pool0: set<nat>, own0: Owner, m1: Memory, pool1: set<nat>, own1: Owner,
                  m2: Memory, pool2: set<nat>, own2: Owner, y: set<nat>)
    requires Grown(m0, pool0, own0, m1, pool1, own1, {}) && Grown(m1, pool1, own1, m2, pool2, own2, y)
    requires own1.Keys !! pool1
    ensures Grown(m0, pool0, own0, m2, pool2, own2, y)
  {
    GrownTrans(m0, pool0, own0, m1, pool1, own1, m2, pool2, own2, {}, y);
    assert {} + y == y;
  }

  /** The frame a mapping of page v gives to the user. */
  function Taken(v: nat, f: nat): set<nat> { if v < USERPAGES then {f} else {} }

  lemma TakenSame(lo: nat, p: nat, v: nat, f: nat)
    requires lo <= v && (lo < USERPAGES ==> v == lo && f == p)
    ensures Taken(v, f) == Taken(lo, p)
  {
  }

  lemma NotHeld(own: Owner, pool: set<nat>, own': Owner, pool': set<nat>, p: nat)
    requires own'.Keys + pool' == own.Keys + pool + {}
    ensures p !in own && p !in pool ==> p !in own' && p !in pool'
  {
    assert p in own'.Keys + pool' <==> p in own.Keys + pool;
  }

  predicate NoUsers(own: Owner) {
    forall f <- own :: !own[f].User?
  }

  lemma DropNext(b: Books, lo: nat, v: nat, hi: nat, c: Books)
    requires v < hi <= PAGES && Dropped(b, lo, v, c)
    ensures Dropped(b, lo, Min(v + 1, hi), DropOne(c, v)) && c.view[v] == b.view[v]
  {
    DropAt(b, lo, v - lo, v);
  }

  lemma DropSkip(b: Books, lo: nat, v: nat, v': nat, hi: nat, c: Books)
    requires v <= v' && v < hi <= PAGES && Dropped(b, lo, v, c)
    requires forall u :: v <= u < v' && u < PAGES ==> !Present(b.view[u])
    ensures Dropped(b, lo, Min(v', hi), c)
  {
    DropAbsent(b, lo, v - lo, Min(v', hi) - v);
  }

  // ---------- growing ----------

  /** The state of an address space: memory, free frames, frames in use, entries. */
  datatype State = State(m: Memory, pool: set<nat>, own: Owner, view: Entries)

  /** Nothing but new tables and user pages lo .. v - 1 was added; nothing was lost. */
  predicate Added(s: State, t: State, lo: nat, v: nat) {
    && Kept(s.m, t.m, s.pool, s.own) && Extends(s.own, t.own) && t.own.Keys + t.pool == s.own.Keys + s.pool
    && (forall f <- t.own :: f in s.own || t.own[f].Table? || (t.own[f].User? && lo <= t.own[f].v < v))
    && forall u :: 0 <= u < PAGES && !(lo <= u < v) ==> t.view[u] == s.view[u]
  }

  /** A page of zeros in a frame that was free, writable by the user. */
  predicate FreshZero(s: State, t: State, u: nat)
    requires u < PAGES
  {
    && Present(t.view[u]) && Flags(t.view[u]) == PTE_P + PTE_W + PTE_U
    && Frame(t.view[u]) in s.pool && Frame(t.view[u]) < FRAMES && t.m[Frame(t.view[u])] == ZeroPage()
  }

  predicate Allocated(s: State, t: State, lo: nat, v: nat) {
    v <= PAGES && Added(s, t, lo, v) && forall u :: lo <= u < v ==> FreshZero(s, t, u)
  }

  /** The page written just before it is mapped keeps what was written. */
  lemma AddedStep(s: State, t: State, t': State, lo: nat, v: nat, f: nat, page: Page, perm: nat)
    requires Added(s, t, lo, v) && lo <= v < USERPAGES && f < FRAMES && perm < PGSIZE && f in t.pool &&
             t.own.Keys !! t.pool
    requires Grown(t.m[f := page], t.pool - {f}, t.own, t'.m, t'.pool, t'.own, {f})
    requires t'.view == t.view[v := Entry(f, perm)] && Users(t'.view, t'.own)
    requires s.own.Keys !! s.pool
    ensures Added(s, t', lo, v + 1) && t'.m[f] == page && f in s.pool
  {
    assert t'.own[f] == User(v);
    assert forall g :: g in t'.own.Keys + t'.pool <==> g in t.own.Keys + (t.pool - {f}) + {f};
    forall g | 0 <= g < FRAMES && g !in s.pool && (g in s.own ==> s.own[g].User?)
      ensures t'.m[g] == s.m[g]
    {
      assert g in t.own.Keys + t.pool <==> g in s.own.Keys + s.pool;
    }
    assert f in t.own.Keys + t.pool;
  }

  /** Outside the frames in total, nothing changed. */
  predicate KeptOut(m: Memory, m': Memory, total: set<nat>) {
    forall f :: 0 <= f < FRAMES && f !in total ==> m'[f] == m[f]
  }

  lemma KeptOutTrans(m: Memory, m': Memory, m'': Memory, total: set<nat>)
    requires KeptOut(m, m', total) && KeptOut(m', m'', total)
    ensures KeptOut(m, m'', total)
  {
  }

  /** The state is that of an address space with directory d. */
  ghost predicate Proper(t: State, d: nat) {
    Space(t.m, d, t.own) && t.view == View(t.m, d) && t.own.Keys !! t.pool
  }

  lemma AddedPage(s: State, t: State, t': State, d: nat, lo: nat, v: nat, f: nat, page: Page, perm: nat)
    requires Added(s, t, lo, v) && lo <= v < USERPAGES && f < FRAMES && perm < PGSIZE && f in t.pool &&
             s.own.Keys !! s.pool
    requires Grown(t.m[f := page], t.pool - {f}, t.own, t'.m, t'.pool, t'.own, {f})
    requires t'.view == t.view[v := Entry(f, perm)] && Proper(t, d) && Proper(t', d)
    ensures Added(s, t', lo, v + 1) && t'.m[f] == page && f in s.pool
  {
    assert See(INSIDE);
    AddedStep(s, t, t', lo, v, f, page, perm);
  }

  /** A page mapped before is where it was, with what it held. */
  lemma PageStays(t: State, t': State, d: nat, v: nat, f: nat, page: Page, w: Word, u: nat)
    requires f < FRAMES && f in t.pool && Grown(t.m[f := page], t.pool - {f}, t.own, t'.m, t'.pool, t'.own, {f})
    requires v < PAGES && t'.view == t.view[v := w] && Proper(t, d) && u < USERPAGES && u != v && Present(t.view[u])
    ensures t'.view[u] == t.view[u] && (Frame(t.view[u]) < FRAMES ==> t'.m[Frame(t.view[u])] == t.m[Frame(t.view[u])])
  {
    assert See(INSIDE);
    var g := Frame(t.view[u]);
    assert g in t.own && t.own[g] == User(u) && g != f && g !in t.pool;
  }

  lemma FreshStep(s: State, t: State, t': State, d: nat, lo: nat, v: nat, f: nat)
    requires Allocated(s, t, lo, v) && lo <= v < USERPAGES && f < FRAMES && f in t.pool && s.own.Keys !! s.pool
    requires Grown(t.m[f := ZeroPage()], t.pool - {f}, t.own, t'.m, t'.pool, t'.own, {f})
    requires t'.view == t.view[v := Entry(f, PTE_W + PTE_U)] && Proper(t, d) && Proper(t', d)
    ensures Allocated(s, t', lo, v + 1)
  {
    AddedPage(s, t, t', d, lo, v, f, ZeroPage(), PTE_W + PTE_U);
    forall u | lo <= u < v
      ensures FreshZero(s, t', u)
    {
      assert FreshZero(s, t, u);
      PageStays(t, t', d, v, f, ZeroPage(), Entry(f, PTE_W + PTE_U), u);
    }
  }

  /** Releasing lo .. hi - 1 again takes away every user page that was added. */
  lemma UndoAdded(s: State, t: State, t': State, extra: set<nat>, free: seq<nat>, free': seq<nat>, lo: nat, v: nat,
                  hi: nat)
    requires Added(s, t, lo, v) && lo <= v <= hi <= USERPAGES && s.own.Keys !! s.pool
    requires t.pool == Elements(free) + extra && t'.pool == Elements(free') + extra
    requires Dropped(Books(t.view, free, t.own), lo, hi, Books(t'.view, free', t'.own))
    requires Users(s.view, s.own) && Users(t.view, t.own) && forall u :: lo <= u < hi ==> !Present(s.view[u])
    requires Kept(t.m, t'.m, Elements(free'), t.own) && t'.own.Keys !! Elements(free')
    requires extra !! t.own.Keys && extra !! Elements(free)
    ensures t'.view == s.view && Added(s, t', lo, lo) && extra !! t'.own.Keys && extra !! Elements(free')
  {
    var b, c := Books(t.view, free, t.own), Books(t'.view, free', t'.own);
    UsersDropped(b, lo, hi, c);
    UndoFrames(b, lo, hi - lo, c, extra);
    UndoKept(s, t, t', Elements(free'), lo, hi - lo);
  }

  lemma UsersDropped(b: Books, lo: nat, hi: nat, c: Books)
    requires Dropped(b, lo, hi, c) && hi <= USERPAGES && Users(b.view, b.own)
    ensures UsersGone(b, lo, hi - lo, c)
    ensures forall u :: 0 <= u < PAGES ==> c.view[u] == if lo <= u < hi && Present(b.view[u]) then 0 else b.view[u]
  {
    DropUsers(b, lo, hi - lo, c);
    forall u | 0 <= u < PAGES
      ensures c.view[u] == if lo <= u < hi && Present(b.view[u]) then 0 else b.view[u]
    {
      DropAt(b, lo, hi - lo, u);
    }
  }

  /** The frames stay the same in all. */
  lemma UndoFrames(b: Books, lo: nat, n: nat, c: Books, extra: set<nat>)
    requires UsersGone(b, lo, n, c) && extra !! b.own.Keys && extra !! Elements(b.free)
    ensures extra !! c.own.Keys && extra !! Elements(c.free)
    ensures c.own.Keys + (Elements(c.free) + extra) == b.own.Keys + (Elements(b.free) + extra)
  {
    assert forall f :: f in Elements(c.free) ==> f in Elements(b.free) || f in b.own;
    assert forall f :: f in c.own.Keys + (Elements(c.free) + extra) <==> f in b.own.Keys + (Elements(b.free) + extra);
  }

  lemma UndoKept(s: State, t: State, t': State, free': set<nat>, lo: nat, n: nat)
    requires Added(s, t, lo, lo + n) && Without(t.own, lo, n, t'.own) && s.own.Keys !! s.pool && lo + n <= USERPAGES
    requires free' <= t'.pool && Kept(t.m, t'.m, free', t.own) && t'.own.Keys !! free'
    requires t'.own.Keys + t'.pool == t.own.Keys + t.pool
    requires Users(s.view, s.own) && forall u :: lo <= u < lo + n ==> !Present(s.view[u])
    ensures Kept(s.m, t'.m, s.pool, s.own) && Extends(s.own, t'.own)
  {
    forall f | 0 <= f < FRAMES && f !in s.pool && (f in s.own ==> s.own[f].User?)
      ensures t'.m[f] == s.m[f]
    {
      assert f in t.own.Keys + t.pool <==> f in s.own.Keys + s.pool;
      if f in s.own {
        assert f in t'.own;
      }
    }
  }

  /** A failed mapping adds at most a table. */
  lemma AddedFail(s: State, t: State, t': State, lo: nat, v: nat, f: nat, m1: Memory, pool1: set<nat>, pool2: set<nat>)
    requires Added(s, t, lo, v) && f != 0 && f in t.pool && pool1 == t.pool - {f} && t.own.Keys !! t.pool && f < FRAMES
    requires m1 == t.m[f := ZeroPage()] && Grown(m1, pool1, t.own, t'.m, pool2, t'.own, {}) && t'.own.Keys !! pool2
    requires t'.pool == pool2 + Held(f) && t'.view == t.view && s.own.Keys !! s.pool
    ensures Added(s, t', lo, v) && f !in t'.own && f !in pool2
  {
    assert forall g :: g in t'.own.Keys + pool2 <==> g in t.own.Keys + pool1 + {};
    assert f in t.own.Keys + t.pool;
    forall g | 0 <= g < FRAMES && g !in s.pool && (g in s.own ==> s.own[g].User?)
      ensures t'.m[g] == s.m[g]
    {
      assert g in t.own.Keys + t.pool <==> g in s.own.Keys + s.pool;
    }
  }

  function Held(f: nat): set<nat> { if f == 0 then {} else {f} }

  // ---------- copying ----------

  /** What is copied: the memory and free frames before, and the parent's entries. */
  datatype Copy = Copy(m: Memory, pool: set<nat>, parent: Entries)

  /** Page u of the child holds what page u of the parent held, with the same flags, in a frame that was free. */
  predicate Copied(c: Copy, t: State, u: nat)
    requires u < PAGES
  {
    && Present(t.view[u]) && Flags(t.view[u]) == Flags(c.parent[u]) && Frame(t.view[u]) in c.pool
    && Frame(t.view[u]) < FRAMES && Frame(c.parent[u]) < FRAMES && t.m[Frame(t.view[u])] == c.m[Frame(c.parent[u])]
  }

  predicate AllCopied(c: Copy, t: State, v: nat) {
    v <= PAGES && forall u :: 0 <= u < v ==> Copied(c, t, u)
  }

  lemma CopyStep(s: State, t: State, t': State, d: nat, c: Copy, v: nat, f: nat, page: Page)
    requires Added(s, t, 0, v) && AllCopied(c, t, v) && v < USERPAGES && f < FRAMES && f in t.pool &&
             s.own.Keys !! s.pool
    requires Present(c.parent[v]) && Frame(c.parent[v]) < FRAMES && page == c.m[Frame(c.parent[v])] && s.pool <= c.pool
    requires Grown(t.m[f := page], t.pool - {f}, t.own, t'.m, t'.pool, t'.own, {f})
    requires t'.view == t.view[v := Entry(f, Flags(c.parent[v]))] && Proper(t, d) && Proper(t', d)
    ensures Added(s, t', 0, v + 1) && AllCopied(c, t', v + 1)
  {
    AddedPage(s, t, t', d, 0, v, f, page, Flags(c.parent[v]));
    OddFlags(c.parent[v]);
    forall u | 0 <= u < v
      ensures Copied(c, t', u)
    {
      assert Copied(c, t, u);
      PageStays(t, t', d, v, f, page, Entry(f, Flags(c.parent[v])), u);
    }
  }

  lemma OddFlags(w: Word)
    requires Present(w)
    ensures Flags(w) % 2 == 1
  {
  }

  /** The frame in hand went back. */
  lemma CopyFail(s: State, t: State, t': State, v: nat, f: nat, page: Page, m1: Memory)
    requires Added(s, t, 0, v) && f in t.pool && f < FRAMES && t.own.Keys !! t.pool && s.own.Keys !! s.pool
    requires t'.pool == (t'.pool - {f}) + {f} &&
             Grown(t.m[f := page], t.pool - {f}, t.own, m1, t'.pool - {f}, t'.own, {})
    requires forall g :: 0 <= g < FRAMES && g != f ==> t'.m[g] == m1[g]
    ensures t'.own.Keys + t'.pool == s.own.Keys + s.pool && Kept(s.m, t'.m, s.pool, s.own) &&
            UsersBelow(s.own, t'.own, v)
  {
    assert forall g :: g in t'.own.Keys + (t'.pool - {f}) <==> g in t.own.Keys + (t.pool - {f}) + {};
    assert forall g :: g in t.own.Keys + t.pool <==> g in s.own.Keys + s.pool;
    assert forall g :: g in t'.own.Keys + t'.pool <==> g in t.own.Keys + t.pool;
    forall g | 0 <= g < FRAMES && g !in s.pool && (g in s.own ==> s.own[g].User?)
      ensures t'.m[g] == s.m[g]
    {
    }
  }

  /** s has at most n elements. */
  predicate Few(s: set<nat>, n: int) {
    forall k {:trigger See(k)} :: k == WITHIN ==> |s| <= n
  }

  lemma FewMeans(s: set<nat>, n: int)
    requires Few(s, n)
    ensures |s| <= n
  {
    assert See(WITHIN);
  }

  lemma FewMore(s: set<nat>, n: int, m: int)
    requires Few(s, n) && n <= m
    ensures Few(s, m)
  {
    FewMeans(s, n);
  }

  /** With no frame left but those in hand, all that was free is in use. */
  lemma Exhausted(s: State, t: State, d: nat, lo: nat, v: nat, held: set<nat>)
    requires Added(s, t, lo, v) && s.own.Keys !! s.pool && lo <= v && t.pool == held && |held| <= 1 &&
             Space(t.m, d, t.own)
    ensures forall n :: n >= 2 + ENTRIES + (v - lo) ==> Few(s.pool, n)
  {
    var fs := s.pool - held;
    forall f <- fs
      ensures f in t.own
    {
      assert f in s.own.Keys + s.pool;
    }
    SpaceSize(t.m, d, t.own, fs, lo, v);
    SizeUnion(s.pool, fs, held);
  }

  lemma SizeUnion(a: set<nat>, b: set<nat>, c: set<nat>)
    requires a <= b + c
    ensures |a| <= |b| + |c|
  {
    SubsetSize(a, b + c);
    UnionSize(b, c);
  }

  /** User pages that were not there before lie below v. */
  predicate UsersBelow(own: Owner, own': Owner, v: nat) {
    Extends(own, own') && forall f <- own' :: own'[f].User? ==> f in own || own'[f].v < v
  }

  lemma FilledOne(view: Entries, v: nat, p: nat, perm: nat)
    requires v < PAGES && p < PAGES && perm < PGSIZE
    ensures Filled(view, v, 1, p, perm) == view[v := Entry(p, perm)] && Filled(view, v, 0, p, perm) == view
  {
  }

  // ---------- the kernel's part of every address space ----------

  /** A row of kmap[]; physEnd wraps round to 0 at the top of memory. */
  datatype Kmap = Kmap(virt: Word, physStart: Word, physEnd: Word, perm: nat)

  predicate DataOk(data: nat) { data % PGSIZE == 0 && EXTMEM < data < PHYSTOP }

  function Rows(data: nat): seq<Kmap>
    requires DataOk(data)
  {
    [ Kmap(KERNBASE, 0, EXTMEM, PTE_W),
      Kmap(KERNBASE + EXTMEM, EXTMEM, data, 0),
      Kmap(KERNBASE + data, data, PHYSTOP, PTE_W),
      Kmap(DEVSPACE, DEVSPACE, 0, PTE_W) ]
  }

  /** What the kernel's mapping is for: low memory at KERNBASE, its text read-only, devices at their own addresses. */
  function KernelEntry(data: nat, u: nat): Word
    requires DataOk(data) && u < PAGES
  {
    if USERPAGES <= u < USERPAGES + FRAMES then
      Entry(u - USERPAGES, if EXTMEM / PGSIZE <= u - USERPAGES < data / PGSIZE then 0 else PTE_W)
    else if DEVSPACE / PGSIZE <= u then Entry(u, PTE_W)
    else 0
  }

  /** The first page past row i. */
  function RowEnd(data: nat, i: nat): nat
    requires DataOk(data) && i <= 4
  {
    if i == 0 then USERPAGES else if i == 1 then USERPAGES + EXTMEM / PGSIZE
    else if i == 2 then USERPAGES + data / PGSIZE else if i == 3 then USERPAGES + FRAMES else PAGES
  }

  /** The kernel's entries after i rows. */
  function KernelView(data: nat, i: nat): Entries
    requires DataOk(data) && i <= 4
  {
    seq(PAGES, u requires 0 <= u < PAGES => KernelAt(data, i, u))
  }

  function KernelAt(data: nat, i: nat, u: nat): Word
    requires DataOk(data) && i <= 4 && u < PAGES
  {
    if u < RowEnd(data, i) then KernelEntry(data, u) else 0
  }

  /** Row i in pages: first page, number of pages, first frame. */
  function RowPages(data: nat, i: nat): (r: (nat, nat, nat))
    requires DataOk(data) && i < 4
    ensures r.0 + r.1 <= PAGES && r.2 + r.1 <= PAGES && r.1 > 0 && r.0 >= USERPAGES
    ensures Rows(data)[i].virt == r.0 * PGSIZE && Rows(data)[i].physStart == r.2 * PGSIZE
    ensures (Rows(data)[i].physEnd - Rows(data)[i].physStart) % U32 == r.1 * PGSIZE
  {
    assert data == data / PGSIZE * PGSIZE && U32 == PAGES * PGSIZE && PHYSTOP == FRAMES * PGSIZE;
    assert EXTMEM == EXTMEM / PGSIZE * PGSIZE && DEVSPACE == DEVSPACE / PGSIZE * PGSIZE;
    assert KERNBASE == USERPAGES * PGSIZE;
    if i == 0 then (USERPAGES, EXTMEM / PGSIZE, 0)
    else if i == 1 then (USERPAGES + EXTMEM / PGSIZE, data / PGSIZE - EXTMEM / PGSIZE, EXTMEM / PGSIZE)
    else if i == 2 then (USERPAGES + data / PGSIZE, FRAMES - data / PGSIZE, data / PGSIZE)
    else (DEVSPACE / PGSIZE, PAGES - DEVSPACE / PGSIZE, DEVSPACE / PGSIZE)
  }

  lemma RowFillsAt(data: nat, i: nat, u: nat)
    requires DataOk(data) && i < 4 && u < PAGES
    ensures Rows(data)[i].perm < PGSIZE
    ensures var (lo, n, p) := RowPages(data, i);
            KernelAt(data, i + 1, u) == if lo <= u < lo + n then Entry(p + (u - lo), Rows(data)[i].perm)
              else KernelAt(data, i, u)
    ensures RowPages(data, i).0 <= u ==> KernelAt(data, i, u) == 0
  {
    if i == 0 {
    } else if i == 1 {
    } else if i == 2 {
    } else {
    }
  }

  lemma RowFills(data: nat, i: nat)
    requires DataOk(data) && i < 4
    ensures Rows(data)[i].perm < PGSIZE
    ensures forall u :: RowPages(data, i).0 <= u < RowPages(data, i).0 + RowPages(data, i).1 ==>
            !Present(KernelView(data, i)[u])
    ensures Filled(KernelView(data, i), RowPages(data, i).0, RowPages(data, i).1, RowPages(data, i).2,
            Rows(data)[i].perm) == KernelView(data, i + 1)
  {
    forall u | 0 <= u < PAGES
      ensures Rows(data)[i].perm < PGSIZE
      ensures FilledAt(KernelView(data, i), RowPages(data, i).0, RowPages(data, i).1, RowPages(data, i).2,
              Rows(data)[i].perm, u) == KernelAt(data, i + 1, u)
      ensures RowPages(data, i).0 <= u ==> KernelAt(data, i, u) == 0
    {
      RowFillsAt(data, i, u);
    }
  }

  // ---------- what the processor sees ----------

  /** Memory at KERNBASE, devices at their own addresses, nothing for the user, and the kernel's text read-only. */
  predicate KernelSees(data: nat, a: Word, acc: Option<Access>) {
    if KERNBASE <= a < KERNBASE + PHYSTOP then
      acc == Some(Access(a - KERNBASE, false, !(KERNBASE + EXTMEM <= a < KERNBASE + data)))
    else if a >= DEVSPACE then acc == Some(Access(a, false, true))
    else acc == None
  }

  lemma KernelThrough(data: nat, a: Word)
    requires DataOk(data)
    ensures KernelSees(data, a, Through(KernelView(data, 4)[a / PGSIZE], a))
  {
    var u := a / PGSIZE;
    var e := KernelEntry(data, u);
    assert KernelView(data, 4)[u] == KernelAt(data, 4, u) == e;
    FlagBits(e);
    assert a == u * PGSIZE + a % PGSIZE && data == data / PGSIZE * PGSIZE;
  }

  /** a leads to a page of zeros that was free, which the user may read and write. */
  ghost predicate FreshAt(s: State, t: State, d: nat, a: Word)
    requires d < FRAMES
  {
    var acc := Translate(t.m, d, a);
    && acc.Some? && acc.value.user && acc.value.write && acc.value.phys % PGSIZE == a % PGSIZE
    && acc.value.phys / PGSIZE in s.pool && acc.value.phys / PGSIZE < FRAMES
    && t.m[acc.value.phys / PGSIZE] == ZeroPage()
  }

  /** From s to t the user got fresh memory for pages lo to hi - 1, and every other address leads where it did. */
  ghost predicate UserGot(s: State, t: State, d: nat, lo: nat, hi: nat)
    requires d < FRAMES
  {
    forall a: Word {:trigger Translate(t.m, d, a)} ::
      if lo <= a / PGSIZE < hi then FreshAt(s, t, d, a) else Translate(t.m, d, a) == Translate(s.m, d, a)
  }

  lemma AllocSees(s: State, t: State, d: nat, lo: nat, hi: nat)
    requires Allocated(s, t, lo, hi) && Space(s.m, d, s.own) && Space(t.m, d, t.own)
    requires s.view == View(s.m, d) && t.view == View(t.m, d)
    ensures UserGot(s, t, d, lo, hi)
  {
    forall a: Word
      ensures if lo <= a / PGSIZE < hi then FreshAt(s, t, d, a) else Translate(t.m, d, a) == Translate(s.m, d, a)
    {
      Hardware(s.m, d, s.own, a);
      Hardware(t.m, d, t.own, a);
      var e := t.view[a / PGSIZE];
      FlagBits(e);
      if lo <= a / PGSIZE < hi {
        assert FreshZero(s, t, a / PGSIZE);
      }
    }
  }

  /** No address of pages lo to hi - 1 leads anywhere, and every other leads where it did. */
  ghost predicate UserLost(m: Memory, m': Memory, d: nat, lo: nat, hi: nat)
    requires d < FRAMES
  {
    forall a: Word {:trigger Translate(m', d, a)} ::
      Translate(m', d, a) == if lo <= a / PGSIZE < hi then None else Translate(m, d, a)
  }

  lemma DropSees(m: Memory, own: Owner, m': Memory, own': Owner, d: nat, b: Books, lo: nat, hi: nat, c: Books)
    requires Space(m, d, own) && Space(m', d, own') && b.view == View(m, d) && c.view == View(m', d)
    requires Dropped(b, lo, hi, c)
    ensures UserLost(m, m', d, lo, hi)
  {
    forall a: Word
      ensures Translate(m', d, a) == if lo <= a / PGSIZE < hi then None else Translate(m, d, a)
    {
      Hardware(m, d, own, a);
      Hardware(m', d, own', a);
      DropAt(b, lo, hi - lo, a / PGSIZE);
      FlagBits(b.view[a / PGSIZE]);
    }
  }

  /** a leads the child to a copy of the page it leads the parent to, with the same rights, in a frame that was free. */
  ghost predicate CopiedAt(m: Memory, parent: nat, pool: set<nat>, m': Memory, child: nat, a: Word)
    requires parent < FRAMES && child < FRAMES
  {
    var (acc, acc') := (Translate(m, parent, a), Translate(m', child, a));
    && acc.Some? && acc'.Some? && acc'.value.user == acc.value.user && acc'.value.write == acc.value.write
    && acc'.value.phys % PGSIZE == acc.value.phys % PGSIZE && acc'.value.phys / PGSIZE in pool
    && acc.value.phys / PGSIZE < FRAMES && acc'.value.phys / PGSIZE < FRAMES
    && m'[acc'.value.phys / PGSIZE] == m[acc.value.phys / PGSIZE]
  }

  /** The child has copies of the parent's first n pages, and the kernel's part. */
  ghost predicate ChildSees(m: Memory, parent: nat, pool: set<nat>, m': Memory, child: nat, n: nat, data: nat)
    requires parent < FRAMES && child < FRAMES
  {
    forall a: Word {:trigger Translate(m', child, a)} ::
      if a / PGSIZE < n then CopiedAt(m, parent, pool, m', child, a) else KernelSees(data, a, Translate(m', child, a))
  }

  lemma CopySees(c: Copy, t: State, pgdir: nat, pown: Owner, d: nat, n: nat, data: nat)
    requires AllCopied(c, t, n) && Space(t.m, d, t.own) && t.view == View(t.m, d) && DataOk(data)
    requires Space(c.m, pgdir, pown) && c.parent == View(c.m, pgdir) && forall u :: 0 <= u < n ==> Present(c.parent[u])
    requires forall u :: n <= u < PAGES ==> t.view[u] == KernelView(data, 4)[u]
    ensures pgdir < FRAMES && ChildSees(c.m, pgdir, c.pool, t.m, d, n, data)
  {
    forall a: Word
      ensures if a / PGSIZE < n then CopiedAt(c.m, pgdir, c.pool, t.m, d, a)
              else KernelSees(data, a, Translate(t.m, d, a))
    {
      Hardware(c.m, pgdir, pown, a);
      Hardware(t.m, d, t.own, a);
      var u := a / PGSIZE;
      if u < n {
        assert Copied(c, t, u);
        FlagBits(c.parent[u]);
        FlagBits(t.view[u]);
      } else {
        KernelThrough(data, a);
      }
    }
  }

  lemma KernelOnly(m: Memory, d: nat, own: Owner, data: nat)
    requires Space(m, d, own) && DataOk(data) && View(m, d) == KernelView(data, 4)
    ensures forall a: Word :: KernelSees(data, a, Translate(m, d, a))
  {
    forall a: Word
      ensures KernelSees(data, a, Translate(m, d, a))
    {
      Hardware(m, d, own, a);
      KernelThrough(data, a);
    }
  }

  function Elements(fs: seq<nat>): set<nat> { set f | f in fs }

  class Machine {
    /** The first frame past the kernel, and the physical address of its data. */
    const first: nat
    const data: nat
    var mem: Memory
    var freelist: Word
    ghost var free: seq<nat>

    /** The free frames. */
    ghost function Pool(): set<nat>
      reads this
    {
      Elements(free)
    }

    ghost predicate Valid()
      reads this
    {
      && 0 < first < FRAMES && DataOk(data)
      && Chain(mem, freelist, free) && forall f <- free :: first <= f < FRAMES
    }

    /** d is the directory of an address space that uses exactly the frames in own. */
    ghost predicate Holds(d: nat, own: Owner)
      reads this
    {
      Valid() && Space(mem, d, own) && own.Keys !! Pool() && forall f <- own :: first <= f < FRAMES
    }

    /** The space holds all of total that is not free. */
    ghost predicate HoldsOf(d: nat, own: Owner, total: set<nat>)
      reads this
    {
      Holds(d, own) && own.Keys + Pool() == total
    }

    // ---------- kalloc.c ----------

    constructor (first: nat, data: nat)
      requires 0 < first < FRAMES && DataOk(data)
      ensures Valid() && free == [] && this.first == first && this.data == data
    {
      this.first, this.data := first, data;
      mem, freelist, free := ZeroMemory(), 0, [];
    }

    /** freerange from the end of the kernel: physical addresses from .. limit. */
    method FreeRange(from: nat, limit: nat)
      requires Valid() && first <= Ceil(from) && limit <= PHYSTOP
      requires forall f <- free :: f < Ceil(from) || f >= limit / PGSIZE
      modifies this
      ensures Valid() && forall f: nat :: f in Pool() <==> f in old(Pool()) || Ceil(from) <= f < limit / PGSIZE
    {
      var p := RoundUp(from);
      ghost var f := Ceil(from);
      while p + PGSIZE <= limit
        invariant Valid() && p == f * PGSIZE && Ceil(from) <= f && (f <= limit / PGSIZE || f == Ceil(from))
        invariant forall g: nat :: g in Pool() <==> g in old(Pool()) || Ceil(from) <= g < f
        decreases limit - p
      {
        PageNumber(f);
        assert f < limit / PGSIZE;
        Kfree(p / PGSIZE);
        p, f := p + PGSIZE, f + 1;
      }
    }

    method Kalloc() returns (f: nat)
      requires Valid()
      modifies this
      ensures Valid() && mem == old(mem)
      ensures f == 0 <==> old(free) == []
      ensures f == 0 ==> free == [] && Pool() == {}
      ensures f != 0 ==>
                first <= f < FRAMES && old(free) == [f] + free && f in old(Pool()) && Pool() == old(Pool()) - {f}
    {
      if freelist == 0 {
        f := 0;
        assert free == [];
      } else {
        f := (freelist - KERNBASE) / PGSIZE;
        assert f == free[0] && f in Pool();
        freelist := mem[f][0];
        free := free[1..];
        assert forall g <- free :: g in old(free);
      }
    }

    method Kfree(f: nat)
      requires Valid() && first <= f < FRAMES && f !in Pool()
      modifies this
      ensures Valid() && free == [f] + old(free) && Pool() == old(Pool()) + {f}
      ensures forall g :: 0 <= g < FRAMES && g != f ==> mem[g] == old(mem[g])
    {
      ghost var was := mem;
      mem := mem[f := JunkPage()[0 := freelist]];
      ChainFrame(was, mem, freelist, free);
      freelist := Addr(f);
      free := [f] + free;
      assert free[1..] == old(free);
    }

    /** A write to a frame in use leaves the free list alone. */
    method Write(f: nat, page: Page)
      requires Valid() && f < FRAMES && f !in Pool()
      modifies this`mem
      ensures Valid() && mem == old(mem)[f := page]
    {
      ghost var was := mem;
      mem := mem[f := page];
      assert forall g <- free :: g in Pool();
      ChainFrame(was, mem, freelist, free);
    }

    // ---------- walkpgdir, mappages ----------

    /** The frame of the table that holds the entry of page v, or 0. */
    method Walk(d: nat, ghost own: Owner, v: nat, alloc: bool) returns (t: nat, ghost own': Owner)
      requires Holds(d, own) && v < PAGES
      modifies this
      ensures Holds(d, own') && View(mem, d) == View(old(mem), d)
      ensures Grown(old(mem), old(Pool()), own, mem, Pool(), own', {})
      ensures t == 0 <==> !Present(old(mem)[d][v / ENTRIES]) && (!alloc || old(free) == [])
      ensures t != 0 ==> Present(mem[d][v / ENTRIES]) && t == Frame(mem[d][v / ENTRIES]) && t in own' && own'[t].Table?
      ensures Present(old(mem)[d][v / ENTRIES]) || t == 0 ==> mem == old(mem) && free == old(free) && own' == own
    {
      assert See(INSIDE);
      own' := own;
      var e := mem[d][v / ENTRIES];
      if Present(e) {
        t := Frame(e);
      } else if !alloc {
        t := 0;
      } else {
        t := Kalloc();
        if t != 0 {
          own' := AddTable(d, own, v / ENTRIES, t);
        }
      }
    }

    /** A zeroed table in frame t, just taken, for directory entry i. */
    method AddTable(d: nat, ghost own: Owner, i: nat, t: nat) returns (ghost own': Owner)
      requires Holds(d, own) && i < ENTRIES && !Present(mem[d][i])
      requires first <= t < FRAMES && t !in Pool() && t !in own
      modifies this`mem
      ensures Holds(d, own') && View(mem, d) == View(old(mem), d) && own' == own[t := Table(i)]
      ensures Present(mem[d][i]) && t == Frame(mem[d][i])
      ensures forall f :: 0 <= f < FRAMES && f != t && f != d ==> mem[f] == old(mem[f])
    {
      assert See(INSIDE);
      assert d in own.Keys && t !in own.Keys;
      ViewAdd(mem, d, own, i, t);
      Write(t, ZeroPage());
      Write(d, mem[d][i := Pde(t)]);
      own' := own[t := Table(i)];
      MakeSpace(mem, d, own');
    }

    /** One turn of mappages. */
    method MapPage(d: nat, ghost own: Owner, v: nat, p: nat, perm: nat) returns (ok: bool, ghost own': Owner)
      requires Holds(d, own) && v < PAGES && p < PAGES && perm < PGSIZE && !Present(View(mem, d)[v])
      requires v < USERPAGES ==> first <= p < FRAMES && p !in own && p !in Pool()
      modifies this
      ensures Holds(d, own')
      ensures ok ==> View(mem, d) == View(old(mem), d)[v := Entry(p, perm)]
      ensures ok ==> Grown(old(mem), old(Pool()), own, mem, Pool(), own', Taken(v, p))
      ensures !ok ==> old(free) == [] && mem == old(mem) && free == [] && own' == own
    {
      var t;
      t, own' := Walk(d, own, v, true);
      if t == 0 {
        return false, own;
      }
      NotHeld(own, old(Pool()), own', Pool(), p);
      SpaceMap(mem, d, own', v, p, perm);
      assert t in own'.Keys;
      Write(t, mem[t][v % ENTRIES := Entry(p, perm)]);
      own' := Used(own', v, p);
      ok := true;
    }

    /** The turn of mappages for the page at address a and the frame at q; own0, m0 and pool0 are those at the start. */
    method MapTurn(d: nat, ghost own: Owner, a: nat, q: nat, perm: nat,
                   ghost m0: Memory, ghost pool0: set<nat>, ghost own0: Owner, ghost lo: nat, ghost n: nat,
                     ghost p: nat)
        returns (ok: bool, ghost own': Owner)
      requires Holds(d, own) && perm < PGSIZE && lo + n < PAGES && p + n < PAGES
      requires a == (lo + n) * PGSIZE && q == (p + n) * PGSIZE
      requires lo < USERPAGES ==> n == 0 && first <= p < FRAMES && p !in own0 && p !in pool0
      requires !Present(View(m0, d)[lo + n]) && View(mem, d) == Filled(View(m0, d), lo, n, p, perm)
      requires Grown(m0, pool0, own0, mem, Pool(), own, {})
      modifies this
      ensures Holds(d, own')
      ensures ok ==> View(mem, d) == Filled(View(m0, d), lo, n + 1, p, perm)
      ensures ok ==> Grown(m0, pool0, own0, mem, Pool(), own', Taken(lo, p))
      ensures lo >= USERPAGES ==> Taken(lo, p) == {}
      ensures !ok ==> mem == old(mem) && free == old(free) == [] && own' == own
    {
      PageNumber(lo + n);
      PageNumber(p + n);
      var v, f := a / PGSIZE, q / PGSIZE;
      FilledStep(View(m0, d), lo, n, p, perm, v, f);
      TakenSame(lo, p, v, f);
      NotHeld(own0, pool0, own, Pool(), f);
      ok, own' := MapPage(d, own, v, f, perm);
      if ok {
        GrownMore(m0, pool0, own0, old(mem), old(Pool()), own, mem, Pool(), own', Taken(lo, p));
      }
    }

    /** Maps the count pages from lo to the count frames from p: va, size and pa in bytes. */
    method MapPages(d: nat, ghost own: Owner, va: Word, size: Word, pa: Word, perm: nat, ghost lo: nat,
                    ghost count: nat, ghost p: nat)
        returns (ok: bool, ghost n: nat, ghost own': Owner)
      requires Holds(d, own) && perm < PGSIZE && 0 < count && lo + count <= PAGES && p + count <= PAGES
      requires va == lo * PGSIZE && size == count * PGSIZE && pa == p * PGSIZE
      requires forall u :: lo <= u < lo + count ==> !Present(View(mem, d)[u])
      requires lo < USERPAGES ==> count == 1 && first <= p < FRAMES && p !in own && p !in Pool()
      modifies this
      ensures Holds(d, own') && n <= count && (ok <==> n == count) && (!ok ==> free == [])
      ensures ok ==> Grown(old(mem), old(Pool()), own, mem, Pool(), own', Taken(lo, p))
      ensures !ok ==> Grown(old(mem), old(Pool()), own, mem, Pool(), own', {})
      ensures View(mem, d) == Filled(View(old(mem), d), lo, n, p, perm)
    {
      var a, last := Bounds(va, size, lo, count);
      var q: nat := pa;
      FilledNone(View(mem, d), lo, p, perm);
      n, own' := 0, own;
      while true
        invariant Holds(d, own') && Grown(old(mem), old(Pool()), own, mem, Pool(), own', {})
        invariant a == (lo + n) * PGSIZE && q == (p + n) * PGSIZE && n < count
        invariant View(mem, d) == Filled(View(old(mem), d), lo, n, p, perm)
        decreases count - n
      {
        ok, own' := MapTurn(d, own', a, q, perm, old(mem), old(Pool()), own, lo, n, p);
        if !ok {
          return;
        }
        n := n + 1;
        if a == last {
          return;
        }
        a, q := a + PGSIZE, q + PGSIZE;
      }
    }

    // ---------- deallocuvm, freevm ----------

    /** deallocuvm on a present page: kfree, then clear the entry. */
    method DropPage(d: nat, ghost own: Owner, v: nat, t: nat) returns (ghost f: nat)
      requires Holds(d, own) && v < USERPAGES && Present(mem[d][v / ENTRIES]) && t == Frame(mem[d][v / ENTRIES]) &&
               Present(View(mem, d)[v])
      modifies this
      ensures f == Frame(View(old(mem), d)[v]) && f in own && own[f] == User(v) && free == [f] + old(free) &&
              Pool() == old(Pool()) + {f}
      ensures Holds(d, own - {f}) && View(mem, d) == View(old(mem), d)[v := 0] && mem[d] == old(mem[d])
      ensures Kept(old(mem), mem, {f}, own)
    {
      assert See(INSIDE);
      f := Frame(View(mem, d)[v]);
      assert t in own.Keys && own[t].Table?;
      Kfree(Frame(mem[t][v % ENTRIES]));
      ViewSame(old(mem), mem, d, own);
      MakeSpace(mem, d, own);
      SpaceUnmap(mem, d, own, v);
      Write(t, mem[t][v % ENTRIES := 0]);
    }

    /** One turn of deallocuvm, at page v: the page to go on with. */
    method DropTurn(d: nat, ghost own: Owner, v: nat, ghost b: Books, ghost lo: nat, ghost hi: nat, ghost m0: Memory)
        returns (v': nat, ghost own': Owner)
      requires Holds(d, own) && lo <= v < hi <= USERPAGES
      requires b.view == View(m0, d) && mem[d] == m0[d] && Dropped(b, lo, v, Books(View(mem, d), free, own))
      modifies this
      ensures Holds(d, own') && v < v' && mem[d] == m0[d]
      ensures Dropped(b, lo, Min(v', hi), Books(View(mem, d), free, own'))
      ensures Kept(old(mem), mem, Pool(), own) && old(Pool()) <= Pool() && Extends(own', own)
    {
      own', v' := own, v + 1;
      ghost var books := Books(View(mem, d), free, own);
      DropNext(b, lo, v, hi, books);
      var t, _ := Walk(d, own, v, false);
      if t == 0 {
        AbsentTable(m0, d, v);
        v' := (v / ENTRIES + 1) * ENTRIES;
        DropSkip(b, lo, v, v', hi, books);
      } else if Present(mem[t][v % ENTRIES]) {
        ghost var f := DropPage(d, own, v, t);
        own' := own - {f};
        assert Books(View(mem, d), free, own') == DropOne(books, v);
      } else {
        assert Books(View(mem, d), free, own') == DropOne(books, v);
      }
    }

    method Dealloc(d: nat, ghost own: Owner, oldsz: nat, newsz: nat) returns (sz: nat, ghost own': Owner)
      requires Holds(d, own) && oldsz <= KERNBASE
      modifies this
      ensures Holds(d, own') && mem[d] == old(mem[d]) && sz == Min(oldsz, newsz)
      ensures newsz >= oldsz ==> mem == old(mem) && free == old(free) && own' == own
      ensures newsz < oldsz ==> Dropped(Books(View(old(mem), d), old(free), own), Ceil(newsz), Ceil(oldsz),
              Books(View(mem, d), free, own'))
      ensures Kept(old(mem), mem, Pool(), own)
      ensures newsz < oldsz ==> UserLost(old(mem), mem, d, Ceil(newsz), Ceil(oldsz))
    {
      own' := own;
      if newsz >= oldsz {
        return oldsz, own;
      }
      var a := RoundUp(newsz);
      ghost var lo, hi, v := Ceil(newsz), Ceil(oldsz), Ceil(newsz);
      ghost var b := Books(View(mem, d), free, own);
      CeilMono(newsz, oldsz);
      while a < oldsz
        invariant a == v * PGSIZE && lo <= v && Holds(d, own') && mem[d] == old(mem[d])
        invariant Dropped(b, lo, Min(v, hi), Books(View(mem, d), free, own'))
        invariant Kept(old(mem), mem, Pool(), own) && Extends(own', own)
        decreases hi - v
      {
        CeilLess(v, oldsz);
        PageNumber(v);
        ghost var m0, own0 := mem, own';
        var next;
        next, own' := DropTurn(d, own', a / PGSIZE, b, lo, hi, old(mem));
        a, v := next * PGSIZE, next;
      }
      CeilLess(v, oldsz);
      DropSees(old(mem), own, mem, own', d, b, lo, hi, Books(View(mem, d), free, own'));
      sz := newsz;
    }

    /** freevm's call of deallocuvm: every user page goes. */
    method DropUserPages(d: nat, ghost own: Owner) returns (ghost own': Owner)
      requires Holds(d, own)
      modifies this
      ensures Holds(d, own') && Pool() + own'.Keys == old(Pool()) + own.Keys
      ensures forall f <- own' :: !own'[f].User?
      ensures forall f :: 0 <= f < FRAMES && f !in old(Pool()) && f !in own ==> mem[f] == old(mem[f])
    {
      assert See(INSIDE);
      ghost var b := Books(View(mem, d), free, own);
      CeilBase();
      var sz;
      sz, own' := Dealloc(d, own, KERNBASE, 0);
      DropUsers(b, 0, USERPAGES, DropPages(b, 0, USERPAGES));
    }

    /** freevm's loop, and the directory last. */
    method FreeTables(d: nat, ghost own: Owner)
      requires Valid() && Rooted(mem, d, own) && own.Keys !! Pool()
      requires forall f <- own :: first <= f < FRAMES && !own[f].User?
      modifies this
      ensures Valid() && Pool() == old(Pool()) + own.Keys
      ensures forall f :: 0 <= f < FRAMES && f !in own ==> mem[f] == old(mem[f])
    {
      for i := 0 to ENTRIES
        invariant Valid() && mem[d] == old(mem[d]) && Pool() == old(Pool()) + TablesBelow(own, i)
        invariant forall f :: 0 <= f < FRAMES && f !in own ==> mem[f] == old(mem[f])
      {
        TablesStep(old(mem), d, own, i);
        if Present(mem[d][i]) {
          Kfree(Frame(mem[d][i]));
        }
      }
      AllTables(old(mem), d, own);
      Kfree(d);
    }

    method FreeVm(d: nat, ghost own: Owner)
      requires Holds(d, own)
      modifies this
      ensures Valid() && Pool() == old(Pool()) + own.Keys
      ensures forall f :: 0 <= f < FRAMES && f !in old(Pool()) && f !in own ==> mem[f] == old(mem[f])
    {
      ghost var own' := DropUserPages(d, own);
      assert See(INSIDE);
      FreeTables(d, own');
    }

    // ---------- setupkvm ----------

    /** An empty directory in a frame just allocated. */
    lemma EmptySpace(d: nat)
      requires Valid() && first <= d < FRAMES && d !in Pool() && mem[d] == ZeroPage()
      ensures Holds(d, map[d := Dir]) && View(mem, d) == KernelView(data, 0)
    {
      forall u | 0 <= u < PAGES
        ensures View(mem, d)[u] == 0
      {
      }
      MakeSpace(mem, d, map[d := Dir]);
    }

    /** One turn of setupkvm's loop over kmap. */
    method MapRow(d: nat, ghost own: Owner, i: nat, ghost total: set<nat>) returns (ok: bool, ghost own': Owner)
      requires HoldsOf(d, own, total) && i < 4 && View(mem, d) == KernelView(data, i) && NoUsers(own)
      modifies this
      ensures HoldsOf(d, own', total) && NoUsers(own') && KeptOut(old(mem), mem, total)
      ensures if ok then View(mem, d) == KernelView(data, i + 1) else Pool() == {}
    {
      var k := Rows(data)[i];
      ghost var lo, count, p := RowPages(data, i).0, RowPages(data, i).1, RowPages(data, i).2;
      RowFills(data, i);
      ghost var n;
      ok, n, own' := MapPages(d, own, k.virt, (k.physEnd - k.physStart) % U32, k.physStart, k.perm, lo, count, p);
    }

    /** The way out when frames run out: freevm, with nothing free but one frame at most. */
    method GiveUp(d: nat, ghost own: Owner, ghost v: nat, ghost spare: nat, ghost total: set<nat>)
      requires HoldsOf(d, own, total) && Pool() == Held(spare) && forall f <- own :: own[f].User? ==> own[f].v < v
      modifies this
      ensures Valid() && Pool() == total && Few(total, 2 + ENTRIES + v) && KeptOut(old(mem), mem, total)
    {
      SpaceSize(mem, d, own, own.Keys, 0, v);
      SizeUnion(total, own.Keys, Pool());
      assert Few(total, 2 + ENTRIES + v);
      FreeVm(d, own);
    }

    /** setupkvm's first page. */
    method NewDirectory() returns (d: nat, ghost own: Owner)
      requires Valid()
      modifies this
      ensures Valid() && KeptOut(old(mem), mem, old(Pool()))
      ensures d == 0 ==> Pool() == old(Pool()) == {}
      ensures d != 0 ==> HoldsOf(d, own, old(Pool())) && View(mem, d) == KernelView(data, 0) && NoUsers(own)
    {
      d := Kalloc();
      own := map[d := Dir];
      if d != 0 {
        Write(d, ZeroPage());
        EmptySpace(d);
      }
    }

    method SetupKvm() returns (d: nat, ghost own: Owner)
      requires Valid()
      modifies this
      ensures Valid() && KeptOut(old(mem), mem, old(Pool()))
      ensures d == 0 ==> Pool() == old(Pool()) && Few(Pool(), 2 + ENTRIES)
      ensures d != 0 ==> HoldsOf(d, own, old(Pool())) && View(mem, d) == KernelView(data, 4) && NoUsers(own)
      ensures d != 0 ==> forall a: Word :: KernelSees(data, a, Translate(mem, d, a))
    {
      ghost var total := Pool();
      d, own := NewDirectory();
      if d == 0 {
        assert Few({}, 2 + ENTRIES);
        return;
      }
      var ok;
      ok, own := MapRows(d, own, total);
      if ok {
        KernelOnly(mem, d, own, data);
      } else {
        d := 0;
      }
    }

    /** The loop over kmap. */
    method MapRows(d: nat, ghost own: Owner, ghost total: set<nat>) returns (ok: bool, ghost own': Owner)
      requires HoldsOf(d, own, total) && View(mem, d) == KernelView(data, 0) && NoUsers(own)
      modifies this
      ensures Valid() && KeptOut(old(mem), mem, total)
      ensures if ok then HoldsOf(d, own', total) && View(mem, d) == KernelView(data, 4) && NoUsers(own')
              else Pool() == total && Few(total, 2 + ENTRIES)
    {
      own' := own;
      for i := 0 to 4
        invariant HoldsOf(d, own', total) && View(mem, d) == KernelView(data, i) && NoUsers(own') &&
                  KeptOut(old(mem), mem, total)
      {
        ghost var m := mem;
        ok, own' := MapRow(d, own', i, total);
        KeptOutTrans(old(mem), m, mem, total);
        if !ok {
          m := mem;
          GiveUp(d, own', 0, 0, total);
          KeptOutTrans(old(mem), m, mem, total);
          return;
        }
      }
      ok := true;
    }

    // ---------- allocuvm ----------

    ghost function Now(d: nat, own: Owner): State
      requires d < FRAMES
      reads this
    {
      State(mem, Pool(), own, View(mem, d))
    }

    /** A frame for the space at d, filled by memset or memmove. */
    method NewPage(d: nat, ghost own: Owner, page: Page) returns (f: nat)
      requires Holds(d, own)
      modifies this
      ensures Holds(d, own) && View(mem, d) == View(old(mem), d)
      ensures f == 0 ==> mem == old(mem) && Pool() == old(Pool()) == {}
      ensures f != 0 ==>
                first <= f < FRAMES && f in old(Pool()) && mem == old(mem)[f := page] && Pool() == old(Pool()) - {f} &&
                f !in own
    {
      f := Kalloc();
      if f != 0 {
        assert f !in own.Keys;
        SpaceKept(mem, mem[f := page], d, own);
        Write(f, page);
      }
    }

    /** mappages for the single user page at address a. */
    method GivePage(d: nat, ghost own: Owner, a: nat, f: nat, perm: nat, ghost v: nat)
                    returns (ok: bool, ghost own': Owner)
      requires Holds(d, own) && v < USERPAGES && a == v * PGSIZE && perm < PGSIZE && !Present(View(mem, d)[v])
      requires first <= f < FRAMES && f !in own && f !in Pool()
      modifies this
      ensures Holds(d, own')
      ensures ok ==>
                View(mem, d) == View(old(mem), d)[v := Entry(f, perm)] &&
                Grown(old(mem), old(Pool()), own, mem, Pool(), own', {f})
      ensures !ok ==>
                View(mem, d) == View(old(mem), d) && Grown(old(mem), old(Pool()), own, mem, Pool(), own', {}) &&
                Pool() == {}
    {
      FilledOne(View(mem, d), v, f, perm);
      ghost var n;
      ok, n, own' := MapPages(d, own, a, PGSIZE, f * PGSIZE, perm, v, 1, f);
    }

    /** One turn of allocuvm. When it fails, f is a frame still to be freed, if any. */
    method AllocTurn(d: nat, ghost own: Owner, a: nat, ghost v: nat, ghost s: State, ghost lo: nat)
        returns (ok: bool, f: nat, ghost own': Owner)
      requires Holds(d, own) && a == v * PGSIZE && lo <= v < USERPAGES && !Present(View(mem, d)[v])
      requires Allocated(s, Now(d, own), lo, v) && s.own.Keys !! s.pool
      modifies this
      ensures Holds(d, own') && (ok ==> Allocated(s, Now(d, own'), lo, v + 1))
      ensures !ok ==> Added(s, State(mem, Pool() + Held(f), own', View(mem, d)), lo, v)
      ensures !ok ==> View(mem, d) == View(old(mem), d) && Held(f) !! own'.Keys && Pool() == {}
      ensures f != 0 ==> first <= f < FRAMES
    {
      own' := own;
      f := NewPage(d, own, ZeroPage());
      if f == 0 {
        assert Pool() + Held(f) == old(Pool());
        return false, f, own;
      }
      ghost var m1, pool1, view1 := mem, Pool(), View(mem, d);
      ok, own' := GivePage(d, own, a, f, PTE_W + PTE_U, v);
      if ok {
        FreshStep(s, old(Now(d, own)), Now(d, own'), d, lo, v, f);
      } else {
        AddedFail(s, old(Now(d, own)), State(mem, Pool() + Held(f), own', View(mem, d)), lo, v, f, m1, pool1, Pool());
      }
    }

    /** allocuvm's way out: deallocuvm, then the frame in hand. */
    method Undo(d: nat, ghost own: Owner, newsz: nat, oldsz: nat, f: nat, ghost v: nat, ghost s: State)
                returns (ghost own': Owner)
      requires Holds(d, own) && oldsz < newsz < KERNBASE && Ceil(oldsz) <= v <= Ceil(newsz)
      requires Added(s, State(mem, Pool() + Held(f), own, View(mem, d)), Ceil(oldsz), v) && s.own.Keys !! s.pool
      requires Users(s.view, s.own) && forall u :: Ceil(oldsz) <= u < Ceil(newsz) && u < PAGES ==> !Present(s.view[u])
      requires Held(f) !! own.Keys && Held(f) !! Pool() && (f != 0 ==> first <= f < FRAMES)
      modifies this
      ensures Holds(d, own') && View(mem, d) == s.view && Added(s, Now(d, own'), Ceil(oldsz), Ceil(oldsz))
    {
      CeilMono(oldsz, newsz);
      assert See(INSIDE);
      ghost var t, fs := State(mem, Pool() + Held(f), own, View(mem, d)), free;
      var sz;
      sz, own' := Dealloc(d, own, newsz, oldsz);
      UndoAdded(s, t, State(mem, Pool() + Held(f), own', View(mem, d)), Held(f), fs, free, Ceil(oldsz), v, Ceil(newsz));
      if f != 0 {
        assert f in Held(f) && Pool() + Held(f) == Pool() + {f};
        ghost var m1 := mem;
        Kfree(f);
        SpaceKept(m1, mem, d, own');
      }
    }

    method Retreat(d: nat, ghost own: Owner, newsz: nat, oldsz: nat, f: nat, ghost v: nat, ghost s: State)
                   returns (ghost own': Owner)
      requires Holds(d, own) && oldsz < newsz < KERNBASE && Ceil(oldsz) <= v < Ceil(newsz) && Pool() == {}
      requires Added(s, State(mem, Pool() + Held(f), own, View(mem, d)), Ceil(oldsz), v) && s.own.Keys !! s.pool
      requires Users(s.view, s.own) && forall u :: Ceil(oldsz) <= u < Ceil(newsz) && u < PAGES ==> !Present(s.view[u])
      requires Held(f) !! own.Keys && (f != 0 ==> first <= f < FRAMES)
      modifies this
      ensures Holds(d, own') && View(mem, d) == s.view && Added(s, Now(d, own'), Ceil(oldsz), Ceil(oldsz))
      ensures Few(s.pool, 1 + ENTRIES + (Ceil(newsz) - Ceil(oldsz)))
    {
      Exhausted(s, State(mem, Pool() + Held(f), own, View(mem, d)), d, Ceil(oldsz), v, Held(f));
      own' := Undo(d, own, newsz, oldsz, f, v, s);
    }

    method Alloc(d: nat, ghost own: Owner, oldsz: nat, newsz: nat) returns (sz: nat, ok: bool, ghost own': Owner)
      requires Holds(d, own) && forall u :: Ceil(oldsz) <= u < Ceil(newsz) && u < PAGES ==> !Present(View(mem, d)[u])
      modifies this
      ensures Holds(d, own')
      ensures sz == if !ok then 0 else if newsz < oldsz then oldsz else newsz
      ensures newsz >= KERNBASE ==> !ok
      ensures newsz >= KERNBASE || newsz < oldsz ==> mem == old(mem) && free == old(free) && own' == own
      ensures ok && oldsz <= newsz ==> Allocated(old(Now(d, own)), Now(d, own'), Ceil(oldsz), Ceil(newsz))
      ensures ok && oldsz <= newsz ==> UserGot(old(Now(d, own)), Now(d, own'), d, Ceil(oldsz), Ceil(newsz))
      ensures !ok ==>
                View(mem, d) == View(old(mem), d) && Added(old(Now(d, own)), Now(d, own'), Ceil(oldsz), Ceil(oldsz))
      ensures !ok && newsz < KERNBASE ==> Few(old(Pool()), 1 + ENTRIES + (Ceil(newsz) - Ceil(oldsz)))
    {
      own' := own;
      if newsz >= KERNBASE {
        return 0, false, own;
      }
      if newsz < oldsz {
        return oldsz, true, own;
      }
      ok, own' := AllocPages(d, own, oldsz, newsz);
      if ok {
        AllocSees(old(Now(d, own)), Now(d, own'), d, Ceil(oldsz), Ceil(newsz));
      }
      sz := if ok then newsz else 0;
    }

    /** The loop of allocuvm. */
    method AllocPages(d: nat, ghost own: Owner, oldsz: nat, newsz: nat) returns (ok: bool, ghost own': Owner)
      requires Holds(d, own) && oldsz <= newsz < KERNBASE
      requires forall u :: Ceil(oldsz) <= u < Ceil(newsz) && u < PAGES ==> !Present(View(mem, d)[u])
      modifies this
      ensures Holds(d, own')
      ensures ok ==> Allocated(old(Now(d, own)), Now(d, own'), Ceil(oldsz), Ceil(newsz))
      ensures !ok ==>
                View(mem, d) == View(old(mem), d) && Added(old(Now(d, own)), Now(d, own'), Ceil(oldsz), Ceil(oldsz))
      ensures !ok ==> Few(old(Pool()), 1 + ENTRIES + (Ceil(newsz) - Ceil(oldsz)))
    {
      own' := own;
      CeilMono(oldsz, newsz);
      SpaceUsers(mem, d, own);
      var a := RoundUp(oldsz);
      ghost var lo, v, s := Ceil(oldsz), Ceil(oldsz), Now(d, own);
      while a < newsz
        invariant a == v * PGSIZE && lo <= v <= Ceil(newsz) && Holds(d, own') && Allocated(s, Now(d, own'), lo, v)
        decreases Ceil(newsz) - v
      {
        CeilLess(v, newsz);
        assert View(mem, d)[v] == s.view[v];
        var more, f;
        more, f, own' := AllocTurn(d, own', a, v, s, lo);
        if !more {
          own' := Retreat(d, own', newsz, oldsz, f, v, s);
          return false, own';
        }
        a, v := a + PGSIZE, v + 1;
      }
      CeilLess(v, newsz);
      ok := true;
    }

    // ---------- copyuvm ----------

    /** Outside what was free, nothing changes: the parent is as it was. */
    lemma ParentKept(m: Memory, pool: set<nat>, d: nat, own: Owner)
      requires Valid() && Space(m, d, own) && own.Keys !! pool && Pool() <= pool &&
               forall f <- own :: first <= f < FRAMES
      requires KeptOut(m, mem, pool)
      ensures Holds(d, own) && View(mem, d) == View(m, d)
    {
      assert forall f <- own :: f in own.Keys;
      SpaceKept(m, mem, d, own);
    }

    /** The parent's entry for the user page at address a. */
    method ReadEntry(pgdir: nat, ghost own: Owner, a: nat, ghost v: nat) returns (pte: Word)
      requires Holds(pgdir, own) && v < USERPAGES && a == v * PGSIZE && Present(View(mem, pgdir)[v])
      modifies this
      ensures Valid() && mem == old(mem) && free == old(free) && pte == View(mem, pgdir)[v] && Frame(pte) in own
    {
      assert See(INSIDE);
      PageNumber(v);
      var t, _ := Walk(pgdir, own, a / PGSIZE, false);
      pte := mem[t][a / PGSIZE % ENTRIES];
    }

    /** One turn of copyuvm's loop. */
    method CopyTurn(d: nat, ghost own: Owner, pgdir: nat, ghost pown: Owner, a: nat, ghost v: nat, ghost s: State,
                    ghost c: Copy)
        returns (ok: bool, ghost own': Owner, ghost spare: nat)
      requires Holds(d, own) && Holds(pgdir, pown) && pown.Keys !! own.Keys && a == v * PGSIZE && v < USERPAGES
      requires Added(s, Now(d, own), 0, v) && s.own.Keys !! s.pool && AllCopied(c, Now(d, own), v) &&
               s.own.Keys + s.pool == c.pool
      requires View(mem, pgdir) == c.parent && Present(c.parent[v]) && !Present(View(mem, d)[v])
      requires forall f <- pown :: mem[f] == c.m[f]
      modifies this
      ensures HoldsOf(d, own', c.pool) && KeptOut(s.m, mem, c.pool)
      ensures ok ==> Added(s, Now(d, own'), 0, v + 1) && AllCopied(c, Now(d, own'), v + 1)
      ensures !ok ==> Pool() == Held(spare) && UsersBelow(s.own, own', v)
    {
      var pte := ReadEntry(pgdir, pown, a, v);
      ghost var t0 := Now(d, own);
      own', spare := own, 0;
      ghost var page := mem[Frame(pte)];
      var f := NewPage(d, own, mem[Frame(pte)]);
      if f == 0 {
        return false, own, 0;
      }
      ok, own' := GivePage(d, own, a, f, Flags(pte), v);
      if ok {
        CopyStep(s, t0, Now(d, own'), d, c, v, f, page);
      } else {
        ghost var m1 := mem;
        NotHeld(own, t0.pool - {f}, own', Pool(), f);
        Kfree(f);
        SpaceKept(m1, mem, d, own');
        CopyFail(s, t0, Now(d, own'), v, f, page, m1);
        spare := f;
      }
    }

    /** copyuvm's loop; s is the child's state before it. */
    method CopyPages(d: nat, ghost own: Owner, pgdir: nat, ghost pown: Owner, sz: nat, ghost s: State, ghost c: Copy)
        returns (ok: bool, ghost own': Owner, ghost v: nat, ghost spare: nat)
      requires HoldsOf(d, own, c.pool) && Holds(pgdir, pown) && pown.Keys !! c.pool && sz <= KERNBASE
      requires s == Now(d, own) && NoUsers(own) && View(mem, d) == KernelView(data, 4)
      requires KeptOut(c.m, mem, c.pool) && c.parent == View(mem, pgdir)
      requires forall u :: 0 <= u < Ceil(sz) && u < PAGES ==> Present(c.parent[u])
      modifies this
      ensures HoldsOf(d, own', c.pool) && KeptOut(c.m, mem, c.pool) && v <= Ceil(sz)
      ensures ok ==> v == Ceil(sz) && Added(s, Now(d, own'), 0, v) && AllCopied(c, Now(d, own'), v)
      ensures !ok ==> v < Ceil(sz) && Pool() == Held(spare) && UsersBelow(s.own, own', v)
    {
      CeilMono(0, sz);
      own', v, spare := own, 0, 0;
      ghost var m0 := mem;
      var i := 0;
      while i < sz
        invariant i == v * PGSIZE && v <= Ceil(sz) && HoldsOf(d, own', c.pool) && Holds(pgdir, pown)
        invariant Added(s, Now(d, own'), 0, v) && AllCopied(c, Now(d, own'), v) && View(mem, pgdir) == c.parent
        invariant KeptOut(c.m, mem, c.pool) && KeptOut(m0, mem, c.pool)
        decreases Ceil(sz) - v
      {
        CeilLess(v, sz);
        ok, own', spare := CopyTurn(d, own', pgdir, pown, i, v, s, c);
        if !ok {
          return;
        }
        ParentKept(m0, c.pool, pgdir, pown);
        i, v := i + PGSIZE, v + 1;
      }
      CeilLess(v, sz);
      ok := true;
    }

    method GiveUpCopy(d: nat, ghost own: Owner, ghost v: nat, ghost spare: nat, ghost c: Copy, ghost n: nat)
      requires HoldsOf(d, own, c.pool) && Pool() == Held(spare) && v <= n && KeptOut(c.m, mem, c.pool)
      requires forall f <- own :: own[f].User? ==> own[f].v < v
      modifies this
      ensures Valid() && Pool() == c.pool && Few(Pool(), 2 + ENTRIES + n) && KeptOut(c.m, mem, c.pool)
    {
      ghost var m := mem;
      GiveUp(d, own, v, spare, c.pool);
      FewMore(Pool(), 2 + ENTRIES + v, 2 + ENTRIES + n);
      KeptOutTrans(c.m, m, mem, c.pool);
    }

    method CopyUvm(pgdir: nat, ghost pown: Owner, sz: nat) returns (d: nat, ghost own: Owner)
      requires Holds(pgdir, pown) && sz <= KERNBASE
      requires forall u :: 0 <= u < Ceil(sz) && u < PAGES ==> Present(View(mem, pgdir)[u])
      modifies this
      ensures Holds(pgdir, pown) && View(mem, pgdir) == View(old(mem), pgdir)
      ensures KeptOut(old(mem), mem, old(Pool()))
      ensures d == 0 ==> Pool() == old(Pool()) && Few(Pool(), 2 + ENTRIES + Ceil(sz))
      ensures d != 0 ==> HoldsOf(d, own, old(Pool()))
      ensures d != 0 ==> AllCopied(Copy(old(mem), old(Pool()), View(old(mem), pgdir)), Now(d, own), Ceil(sz))
      ensures d != 0 ==> forall u :: Ceil(sz) <= u < PAGES ==> View(mem, d)[u] == KernelView(data, 4)[u]
      ensures d != 0 ==> ChildSees(old(mem), pgdir, old(Pool()), mem, d, Ceil(sz), data)
    {
      ghost var m0, pool0 := mem, Pool();
      ghost var c := Copy(mem, Pool(), View(mem, pgdir));
      d, own := SetupKvm();
      ParentKept(m0, pool0, pgdir, pown);
      if d == 0 {
        FewMore(Pool(), 2 + ENTRIES, 2 + ENTRIES + Ceil(sz));
        return;
      }
      var ok;
      ghost var v, spare;
      ok, own, v, spare := CopyPages(d, own, pgdir, pown, sz, Now(d, own), c);
      if !ok {
        GiveUpCopy(d, own, v, spare, c, Ceil(sz));
        d := 0;
      } else {
        CopySees(c, Now(d, own), pgdir, pown, d, Ceil(sz), data);
      }
      ParentKept(m0, pool0, pgdir, pown);
    }
  }
}
