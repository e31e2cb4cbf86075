/** Two-level page tables in physical memory (mmu.h, vm.c) and the chain of free frames (kalloc.c), as values. */
module Paging {
  import opened Words
  import opened Wrappers
  import opened Keys

  const ENTRIES: nat := 1024
  const EXTMEM: nat := 0x10_0000
  const PHYSTOP: nat := 0xE00_0000
  const DEVSPACE: nat := 0xFE00_0000

  // Page numbers.
  const FRAMES: nat := PHYSTOP / PGSIZE
  const USERPAGES: nat := KERNBASE / PGSIZE
  const PAGES: nat := U32 / PGSIZE

  const PTE_P: nat := 1
  const PTE_W: nat := 2
  const PTE_U: nat := 4

  type Word = w: nat | w < U32
  type Page = p: seq<Word> | |p| == ENTRIES witness seq(ENTRIES, _ => 0)

  function ZeroPage(): (p: Page)
    ensures forall k :: 0 <= k < ENTRIES ==> p[k] == 0
  {
    seq(ENTRIES, _ => 0)
  }

  function ZeroMemory(): (m: seq<Page>)
    ensures |m| == FRAMES
  {
    seq<Page>(FRAMES, _ => ZeroPage())
  }

  type Memory = m: seq<Page> | |m| == FRAMES witness ZeroMemory()

  // ---------- entries ----------

  predicate Present(w: Word) { w % 2 == PTE_P }

  function Frame(w: Word): nat { w / PGSIZE }

  function Flags(w: Word): nat { w % PGSIZE }

  /** frame * PGSIZE | flags | PTE_P */
  function Entry(frame: nat, flags: nat): (w: Word)
    requires frame < PAGES && flags < PGSIZE
    ensures Present(w) && Frame(w) == frame && Flags(w) == flags + 1 - flags % 2
  {
    frame * PGSIZE + flags + 1 - flags % 2
  }

  function Pde(table: nat): Word
    requires table < FRAMES
  {
    Entry(table, PTE_P + PTE_W + PTE_U)
  }

  // ---------- the hardware ----------

  /** The bit of value k, a power of two, in w. */
  predicate Bit(w: nat, k: nat)
    requires k > 0
  {
    w / k % 2 == 1
  }

  /** What the processor makes of an address: where it goes, and whether the user may use it and write there. */
  datatype Access = Access(phys: nat, user: bool, write: bool)

  /**
   * The walk of the memory management unit: ten bits of the address pick a directory entry, ten more an entry
   * of the table it points to, and each right needs its bit, 4 for the user and 2 for writing, in both.
   */
  function Translate(m: Memory, d: nat, a: Word): Option<Access>
    requires d < FRAMES
  {
    var pde := m[d][a / 0x40_0000];
    if !Bit(pde, 1) || pde / 0x1000 >= FRAMES then None
    else
      var pte := m[pde / 0x1000][a / 0x1000 % 0x400];
      if !Bit(pte, 1) then None
      else Some(Access(pte / 0x1000 * 0x1000 + a % 0x1000, Bit(pde, 4) && Bit(pte, 4), Bit(pde, 2) && Bit(pte, 2)))
  }

  /** What the entry e of an address's page, taken alone, gives. */
  function Through(e: Word, a: Word): Option<Access> {
    if !Bit(e, 1) then None else Some(Access(e / 0x1000 * 0x1000 + a % 0x1000, Bit(e, 4), Bit(e, 2)))
  }

  lemma FlagBits(w: Word)
    ensures Bit(w, 1) == Bit(Flags(w), 1) == Present(w)
    ensures Bit(w, 2) == Bit(Flags(w), 2) && Bit(w, 4) == Bit(Flags(w), 4)
  {
    var q, r := Frame(w), Flags(w);
    LowBits(q, r);
    assert w == PGSIZE * q + r;
  }

  /** The low bits of a word do not depend on its frame. */
  lemma LowBits(q: nat, r: nat)
    ensures Bit(PGSIZE * q + r, 1) == Bit(r, 1)
    ensures Bit(PGSIZE * q + r, 2) == Bit(r, 2) && Bit(PGSIZE * q + r, 4) == Bit(r, 4)
  {
    EvenPlus(2048 * q, r);
    EvenPlus(1024 * q, r / 2);
    EvenPlus(512 * q, r / 4);
    HalfWord(q, r);
    QuarterWord(q, r);
  }

  lemma EvenPlus(x: nat, y: nat)
    ensures (2 * x + y) % 2 == y % 2
  {
  }

  lemma HalfWord(q: nat, r: nat)
    ensures (PGSIZE * q + r) / 2 == 2 * (1024 * q) + r / 2
  {
    assert PGSIZE * q + r == 2 * (2048 * q) + r;
  }

  lemma QuarterWord(q: nat, r: nat)
    ensures (PGSIZE * q + r) / 4 == 2 * (512 * q) + r / 4
  {
    assert PGSIZE * q + r == 4 * (1024 * q) + r;
  }

  lemma PdeBits(table: nat)
    requires table < FRAMES
    ensures Bit(Pde(table), 2) && Bit(Pde(table), 4)
  {
    FlagBits(Pde(table));
  }

  function Set(m: Memory, f: nat, k: nat, w: Word): Memory
    requires f < FRAMES && k < ENTRIES
  {
    m[f := m[f][k := w]]
  }

  /** The entry for page v under directory d; 0 where there is no page table. */
  function Pte(m: Memory, d: nat, v: nat): Word
    requires d < FRAMES && v < PAGES
  {
    var e := m[d][v / ENTRIES];
    if Present(e) && Frame(e) < FRAMES then m[Frame(e)][v % ENTRIES] else 0
  }

  type Entries = s: seq<Word> | |s| == PAGES witness seq(PAGES, _ => 0)

  /** The entries of all pages under directory d. */
  ghost function View(m: Memory, d: nat): (s: Entries)
    requires d < FRAMES
  {
    seq(PAGES, v requires 0 <= v < PAGES => Pte(m, d, v))
  }

  // ---------- ownership ----------

  /** What an address space uses a frame for. */
  datatype Role = Dir | Table(i: nat) | User(v: nat)

  type Owner = map<nat, Role>

  /** The directory and its tables; no two entries share a table. */
  predicate Rooted(m: Memory, d: nat, own: Owner) {
    d in own && own[d] == Dir
    && (forall f <- own :: f < FRAMES)
    && (forall f <- own :: own[f] == Dir ==> f == d)
    && (forall f <- own :: own[f].Table? ==>
      own[f].i < ENTRIES && Present(m[d][own[f].i]) && Frame(m[d][own[f].i]) == f)
    && (forall i :: 0 <= i < ENTRIES && Present(m[d][i]) ==> Frame(m[d][i]) in own && own[Frame(m[d][i])] == Table(i))
    && (forall i :: 0 <= i < ENTRIES && Present(m[d][i]) ==> Open(m[d][i]))
  }

  /** A directory entry leaves both rights to the entries of its table. */
  predicate Open(w: Word) {
    Bit(w, 2) && Bit(w, 4)
  }

  /** The user pages: no two share a frame, and none is a table. Absent entries are zero. */
  predicate Users(view: Entries, own: Owner) {
    && (forall f <- own :: own[f].User? ==>
      own[f].v < USERPAGES && Present(view[own[f].v]) && Frame(view[own[f].v]) == f)
    && (forall v :: 0 <= v < USERPAGES && Present(view[v]) ==> Frame(view[v]) in own && own[Frame(view[v])] == User(v))
    && (forall v :: 0 <= v < PAGES && !Present(view[v]) ==> view[v] == 0)
  }

  /** An address space: directory d, using the frames in own. */
  ghost predicate Space(m: Memory, d: nat, own: Owner) {
    && d in own && d < FRAMES
    && forall k {:trigger See(k)} :: k == INSIDE ==> Rooted(m, d, own) && Users(View(m, d), own)
  }

  lemma MakeSpace(m: Memory, d: nat, own: Owner)
    requires Rooted(m, d, own) && Users(View(m, d), own)
    ensures Space(m, d, own)
  {
  }

  /** Writes outside the directory and the tables change no entry. */
  lemma ViewSame(m: Memory, m': Memory, d: nat, own: Owner)
    requires Rooted(m, d, own) && forall f <- own :: !own[f].User? ==> m'[f] == m[f]
    ensures Rooted(m', d, own) && View(m', d) == View(m, d)
  {
    forall v | 0 <= v < PAGES
      ensures Pte(m', d, v) == Pte(m, d, v)
    {
    }
  }

  /** Writing one entry of a table changes the entry of one page. */
  lemma ViewSet(m: Memory, d: nat, own: Owner, v: nat, w: Word)
    requires Rooted(m, d, own) && v < PAGES && Present(m[d][v / ENTRIES])
    ensures Frame(m[d][v / ENTRIES]) < FRAMES
    ensures Rooted(Set(m, Frame(m[d][v / ENTRIES]), v % ENTRIES, w), d, own)
    ensures View(Set(m, Frame(m[d][v / ENTRIES]), v % ENTRIES, w), d) == View(m, d)[v := w]
  {
    var t := Frame(m[d][v / ENTRIES]);
    var m' := Set(m, t, v % ENTRIES, w);
    assert m'[d] == m[d];
    forall u | 0 <= u < PAGES
      ensures Pte(m', d, u) == if u == v then w else Pte(m, d, u)
    {
      if u / ENTRIES == v / ENTRIES && u != v {
        assert u % ENTRIES != v % ENTRIES;
      }
    }
  }

  /** A new empty table changes no page's entry. */
  lemma ViewAdd(m: Memory, d: nat, own: Owner, i: nat, t: nat)
    requires Rooted(m, d, own) && i < ENTRIES && !Present(m[d][i]) && t < FRAMES && t !in own
    ensures Rooted(Set(m[t := ZeroPage()], d, i, Pde(t)), d, own[t := Table(i)])
    ensures View(Set(m[t := ZeroPage()], d, i, Pde(t)), d) == View(m, d)
  {
    var m' := Set(m[t := ZeroPage()], d, i, Pde(t));
    PdeBits(t);
    assert m'[d] == m[d][i := Pde(t)];
    forall u | 0 <= u < PAGES
      ensures Pte(m', d, u) == Pte(m, d, u)
    {
    }
  }

  lemma SpaceUsers(m: Memory, d: nat, own: Owner)
    requires Space(m, d, own)
    ensures Users(View(m, d), own)
  {
    assert See(INSIDE);
  }

  /** In an address space the entries of the pages decide: the processor sees what View says. */
  lemma Hardware(m: Memory, d: nat, own: Owner, a: Word)
    requires Space(m, d, own)
    ensures Translate(m, d, a) == Through(View(m, d)[a / PGSIZE], a)
  {
    assert See(INSIDE);
    var v := a / PGSIZE;
    assert v / ENTRIES == a / 0x40_0000 && v % ENTRIES == a / 0x1000 % 0x400;
    var pde := m[d][v / ENTRIES];
    FlagBits(pde);
    assert View(m, d)[v] == Pte(m, d, v);
    if Present(pde) {
      assert Frame(pde) in own && Open(pde);
    }
  }

  lemma SpaceKept(m: Memory, m': Memory, d: nat, own: Owner)
    requires Space(m, d, own) && forall f <- own :: f < FRAMES && (!own[f].User? ==> m'[f] == m[f])
    ensures Space(m', d, own) && View(m', d) == View(m, d)
  {
    assert See(INSIDE);
    ViewSame(m, m', d, own);
    MakeSpace(m', d, own);
  }

  lemma RootedUser(m: Memory, d: nat, own: Owner, f: nat, v: nat)
    requires Rooted(m, d, own) && f < FRAMES && f !in own
    ensures Rooted(m, d, own[f := User(v)])
  {
  }

  lemma RootedDrop(m: Memory, d: nat, own: Owner, f: nat)
    requires Rooted(m, d, own) && f in own && own[f].User?
    ensures Rooted(m, d, own - {f})
  {
  }

  lemma UsersMap(view: Entries, own: Owner, v: nat, w: Word)
    requires Users(view, own) && v < PAGES && Present(w) && !Present(view[v]) && (v < USERPAGES ==> Frame(w) !in own)
    ensures Users(view[v := w], Used(own, v, Frame(w)))
  {
  }

  /** own with page v, if a user page, in frame f. */
  function Used(own: Owner, v: nat, f: nat): Owner { if v < USERPAGES then own[f := User(v)] else own }

  /** mappages' write: page v gets frame p. */
  lemma SpaceMap(m: Memory, d: nat, own: Owner, v: nat, p: nat, perm: nat)
    requires Space(m, d, own) && v < PAGES && p < PAGES && perm < PGSIZE
    requires Present(m[d][v / ENTRIES]) && !Present(View(m, d)[v]) && (v < USERPAGES ==> p < FRAMES && p !in own)
    ensures Frame(m[d][v / ENTRIES]) < FRAMES
    ensures Space(Set(m, Frame(m[d][v / ENTRIES]), v % ENTRIES, Entry(p, perm)), d, Used(own, v, p))
    ensures View(Set(m, Frame(m[d][v / ENTRIES]), v % ENTRIES, Entry(p, perm)), d) == View(m, d)[v := Entry(p, perm)]
  {
    assert See(INSIDE);
    ViewSet(m, d, own, v, Entry(p, perm));
    UsersMap(View(m, d), own, v, Entry(p, perm));
    var m' := Set(m, Frame(m[d][v / ENTRIES]), v % ENTRIES, Entry(p, perm));
    if v < USERPAGES {
      RootedUser(m', d, own, p, v);
    }
    MakeSpace(m', d, Used(own, v, p));
  }

  lemma UsersUnmap(view: Entries, own: Owner, v: nat)
    requires Users(view, own) && v < USERPAGES && Present(view[v])
    ensures Users(view[v := 0], own - {Frame(view[v])})
  {
  }

  /** deallocuvm's write: page v loses its frame. */
  lemma SpaceUnmap(m: Memory, d: nat, own: Owner, v: nat)
    requires Space(m, d, own) && v < USERPAGES && Present(m[d][v / ENTRIES]) && Present(View(m, d)[v])
    ensures Frame(m[d][v / ENTRIES]) < FRAMES
    ensures Space(Set(m, Frame(m[d][v / ENTRIES]), v % ENTRIES, 0), d, own - {Frame(View(m, d)[v])})
    ensures View(Set(m, Frame(m[d][v / ENTRIES]), v % ENTRIES, 0), d) == View(m, d)[v := 0]
  {
    assert See(INSIDE);
    ViewSet(m, d, own, v, 0);
    UsersUnmap(View(m, d), own, v);
    var m' := Set(m, Frame(m[d][v / ENTRIES]), v % ENTRIES, 0);
    RootedDrop(m', d, own, Frame(View(m, d)[v]));
    MakeSpace(m', d, own - {Frame(View(m, d)[v])});
  }

  /** The tables of the first i directory entries. */
  function TablesBelow(own: Owner, i: nat): set<nat> {
    set f | f in own && own[f].Table? && own[f].i < i
  }

  lemma TablesStep(m: Memory, d: nat, own: Owner, i: nat)
    requires Rooted(m, d, own) && i < ENTRIES
    ensures !Present(m[d][i]) ==> TablesBelow(own, i + 1) == TablesBelow(own, i)
    ensures Present(m[d][i]) ==> TablesBelow(own, i + 1) == TablesBelow(own, i) + {Frame(m[d][i])}
    ensures Present(m[d][i]) ==> Frame(m[d][i]) !in TablesBelow(own, i) && Frame(m[d][i]) in own && Frame(m[d][i]) != d
  {
    forall f | f in TablesBelow(own, i + 1) && f !in TablesBelow(own, i)
      ensures Present(m[d][i]) && f == Frame(m[d][i])
    {
      assert own[f].i == i;
    }
  }

  lemma AllTables(m: Memory, d: nat, own: Owner)
    requires Rooted(m, d, own) && forall f <- own :: !own[f].User?
    ensures own.Keys == TablesBelow(own, ENTRIES) + {d} && d !in TablesBelow(own, ENTRIES)
  {
  }

  // ---------- how many frames a space can use ----------

  lemma {:induction false} Pigeonhole(fs: set<nat>, slot: map<nat, nat>, n: nat)
    requires fs <= slot.Keys && (forall f <- fs :: slot[f] < n)
    requires forall f <- fs, g <- fs :: slot[f] == slot[g] ==> f == g
    ensures |fs| <= n
    decreases n
  {
    if fs != {} {
      var some :| some in fs;
      assert slot[some] < n;
      if exists f :: f in fs && slot[f] == n - 1 {
        var f :| f in fs && slot[f] == n - 1;
        Pigeonhole(fs - {f}, slot, n - 1);
      } else {
        Pigeonhole(fs, slot, n - 1);
      }
    }
  }

  /** One directory, a table per directory entry, and a frame per user page. */
  lemma SpaceSize(m: Memory, d: nat, own: Owner, fs: set<nat>, lo: nat, hi: nat)
    requires Space(m, d, own) && fs <= own.Keys && lo <= hi && forall f <- fs :: own[f].User? ==> lo <= own[f].v < hi
    ensures |fs| <= 1 + ENTRIES + (hi - lo)
  {
    assert See(INSIDE);
    var slot: map<nat, nat> := map f | f in fs :: if own[f].User? then 1 + ENTRIES + (own[f].v - lo)
      else if own[f].Table? then 1 + own[f].i else 0;
    forall f <- fs, g <- fs | slot[f] == slot[g]
      ensures f == g
    {
      assert own[f] == own[g];
    }
    Pigeonhole(fs, slot, 1 + ENTRIES + (hi - lo));
  }

  // ---------- shrinking, page by page ----------

  /** What a sequence of page releases changes: the entries, the free list and the frames in use. */
  datatype Books = Books(view: Entries, free: seq<nat>, own: Owner)

  function DropOne(b: Books, v: nat): Books
    requires v < PAGES
  {
    if Present(b.view[v]) then Books(b.view[v := 0], [Frame(b.view[v])] + b.free, b.own - {Frame(b.view[v])}) else b
  }

  /** Release pages lo .. lo + n - 1 one after another. */
  function DropPages(b: Books, lo: nat, n: nat): Books
    requires lo + n <= PAGES
  {
    if n == 0 then b else DropOne(DropPages(b, lo, n - 1), lo + n - 1)
  }

  lemma {:induction false} DropAt(b: Books, lo: nat, n: nat, u: nat)
    requires lo + n <= PAGES && u < PAGES
    ensures DropPages(b, lo, n).view[u] == if lo <= u < lo + n && Present(b.view[u]) then 0 else b.view[u]
  {
    if n > 0 {
      DropAt(b, lo, n - 1, u);
    }
  }

  /** Absent pages may be passed over. */
  lemma {:induction false} DropAbsent(b: Books, lo: nat, n: nat, k: nat)
    requires lo + n + k <= PAGES && forall u :: lo + n <= u < lo + n + k ==> !Present(b.view[u])
    ensures DropPages(b, lo, n + k) == DropPages(b, lo, n)
    decreases k
  {
    if k > 0 {
      DropAbsent(b, lo, n, k - 1);
      DropAt(b, lo, n + k - 1, lo + n + k - 1);
    }
  }

  /** own without the user pages lo .. lo + n - 1. */
  predicate Without(own: Owner, lo: nat, n: nat, own': Owner) {
    && own'.Keys <= own.Keys && (forall f <- own' :: own'[f] == own[f])
    && forall f <- own :: f in own' <==> !(own[f].User? && lo <= own[f].v < lo + n)
  }

  /** The frames of own that are no longer in use are free. */
  ghost predicate Released(b: Books, c: Books) {
    forall f :: f in c.free <==> f in b.free || (f in b.own && f !in c.own)
  }

  /** From b to c, user pages lo .. lo + n - 1 and their frames, and no others, were released. */
  ghost predicate UsersGone(b: Books, lo: nat, n: nat, c: Books) {
    Users(c.view, c.own) && Without(b.own, lo, n, c.own) && Released(b, c)
  }

  lemma DropOneUser(b: Books, c: Books, lo: nat, n: nat, v: nat)
    requires v == lo + n < USERPAGES && Users(b.view, b.own) && c.view[v] == b.view[v] && UsersGone(b, lo, n, c)
    ensures UsersGone(b, lo, n + 1, DropOne(c, v))
  {
    if Present(c.view[v]) {
      UsersUnmap(c.view, c.own, v);
    }
  }

  /** Releasing user pages: their frames, and no others, move to the free list. */
  lemma {:induction false} DropUsers(b: Books, lo: nat, n: nat, c: Books)
    requires lo + n <= USERPAGES && Users(b.view, b.own) && c == DropPages(b, lo, n)
    ensures UsersGone(b, lo, n, c)
    decreases n
  {
    if n > 0 {
      var c1, v := DropPages(b, lo, n - 1), lo + n - 1;
      DropUsers(b, lo, n - 1, c1);
      assert c1.view[v] == b.view[v] by {
        DropAt(b, lo, n - 1, v);
      }
      DropOneUser(b, c1, lo, n - 1, v);
    }
  }

  // ---------- the free list ----------

  /** P2V of a frame. */
  function Addr(f: nat): Word
    requires f < FRAMES
  {
    KERNBASE + f * PGSIZE
  }

  /** From head, the links in the free frames themselves run through fs, each once. */
  predicate Chain(m: Memory, head: Word, fs: seq<nat>)
    decreases |fs|
  {
    if fs == [] then head == 0
    else fs[0] < FRAMES && head == Addr(fs[0]) && fs[0] !in fs[1..] && Chain(m, m[fs[0]][0], fs[1..])
  }

  lemma {:induction false} ChainFrame(m: Memory, m': Memory, head: Word, fs: seq<nat>)
    requires Chain(m, head, fs) && forall f <- fs :: f < FRAMES ==> m'[f] == m[f]
    ensures Chain(m', head, fs)
    decreases |fs|
  {
    if fs != [] {
      assert fs[0] in fs;
      ChainFrame(m, m', m[fs[0]][0], fs[1..]);
    }
  }
}
