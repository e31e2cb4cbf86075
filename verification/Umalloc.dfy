/** malloc, free and morecore of umalloc.c (The C Programming Language, 2nd ed., section 8.7). */
module Umalloc {
  import opened Words
  import opened Keys
  import opened Wrappers
  import opened FreeList

  const MINCORE: nat := 4096

  /** A block handed out by malloc: its header's address and its size in headers. */
  datatype Chunk = Chunk(addr: nat, size: nat) {
    function End(): nat {
      addr + HDR * size
    }
  }

  /** Some free block has at least n units. */
  predicate Fit(fl: seq<nat>, size: Sizes, n: nat) {
    AllIn(fl, size) && exists i :: 0 <= i < |fl| && size[fl[i]] >= n
  }

  predicate Apart(a: nat, e: nat, a': nat, e': nat) {
    e <= a' || e' <= a
  }

  /** [a, e) meets no free block. */
  predicate OffList(fl: seq<nat>, size: Sizes, a: nat, e: nat) {
    AllIn(fl, size) && forall i :: 0 <= i < |fl| ==> Apart(a, e, fl[i], End(size, fl[i]))
  }

  /** [a, e) meets no block that is handed out. */
  predicate OffLive(live: seq<Chunk>, a: nat, e: nat) {
    forall k :: 0 <= k < |live| ==> Apart(a, e, live[k].addr, live[k].End())
  }

  /** Byte x is in some free block. */
  predicate InFree(fl: seq<nat>, size: Sizes, x: nat) {
    AllIn(fl, size) && exists i :: 0 <= i < |fl| && fl[i] <= x < End(size, fl[i])
  }

  /** The free bytes and [a, e) before are the free bytes and [a', e') after. */
  ghost predicate SameBytes(fl: seq<nat>, size: Sizes, a: nat, e: nat, fl': seq<nat>, size': Sizes, a': nat, e': nat) {
    forall x: nat {:trigger See(x)} :: See(x) ==>
      (InFree(fl', size', x) || a' <= x < e' <==> InFree(fl, size, x) || a <= x < e)
  }

  /** Handed-out blocks keep their headers, and overlap neither each other nor the free list. */
  predicate LiveOk(base: nat, fl: seq<nat>, size: Sizes, live: seq<Chunk>) {
    (forall k :: 0 <= k < |live| ==>
       live[k].size > 0 && base < live[k].addr && live[k].addr in size && size[live[k].addr] == live[k].size) &&
    (forall k, l :: 0 <= k < l < |live| ==> Apart(live[k].addr, live[k].End(), live[l].addr, live[l].End())) &&
    (forall k :: 0 <= k < |live| ==> OffList(fl, size, live[k].addr, live[k].End()))
  }

  function LiveUnits(live: seq<Chunk>): nat {
    if live == [] then 0 else LiveUnits(live[..|live| - 1]) + live[|live| - 1].size
  }

  function Drop(live: seq<Chunk>, k: nat): seq<Chunk>
    requires k < |live|
  {
    live[..k] + live[k + 1..]
  }

  lemma {:induction false} DropLive(live: seq<Chunk>, k: nat)
    requires k < |live|
    ensures LiveUnits(live) == LiveUnits(Drop(live, k)) + live[k].size
  {
    var n := |live| - 1;
    if k < n {
      DropLive(live[..n], k);
      assert Drop(live, k)[..n - 1] == Drop(live[..n], k);
    } else {
      assert Drop(live, k) == live[..n];
    }
  }

  lemma CircularFrame(fl: seq<nat>, ptr: Links, ptr': Links)
    requires Circular(fl, ptr) && AllIn(fl, ptr') && AllIn(fl, ptr)
    requires forall i :: 0 <= i < |fl| ==> ptr'[fl[i]] == ptr[fl[i]]
    ensures Circular(fl, ptr')
  {}

  // ---------- free, one neighbour at a time ----------

  /** Where bp belongs: after fl[j], before the next. */
  predicate Between(fl: seq<nat>, j: nat, bp: nat) {
    j < |fl| && fl[j] < bp && (j + 1 < |fl| ==> bp < fl[j + 1])
  }

  /** A block about to join the list at j: it meets no free block, and ends short of the next one. */
  predicate Joining(fl: seq<nat>, size: Sizes, j: nat, bp: nat) {
    Coalesced(fl, size) && Between(fl, j, bp) && bp in size && size[bp] > 0 && bp !in fl &&
    End(size, fl[j]) <= bp && (j + 1 < |fl| ==> End(size, bp) < fl[j + 1])
  }

  lemma FreshSize(fl: seq<nat>, size: Sizes, bp: nat, n: nat)
    requires Coalesced(fl, size) && bp !in fl
    ensures Coalesced(fl, size[bp := n]) && Units(fl, size[bp := n]) == Units(fl, size)
    ensures forall i :: 0 <= i < |fl| ==> End(size[bp := n], fl[i]) == End(size, fl[i])
  {
    assert forall i :: 0 <= i < |fl| ==> fl[i] in fl;
    UnitsFrame(fl, size, fl, size[bp := n], |fl|);
  }

  /** bp->s.size += p->s.ptr->s.size: the upper neighbour is taken off the list and into bp. */
  lemma JoinUpper(fl: seq<nat>, ptr: Links, size: Sizes, j: nat, bp: nat, q: nat, fl1: seq<nat>, size1: Sizes)
    requires ListOk(fl, ptr, size) && Between(fl, j, bp) && bp in size && size[bp] > 0 && bp !in fl
    requires End(size, fl[j]) <= bp && j + 1 < |fl| && End(size, bp) == fl[j + 1] == q
    requires fl1 == Dropped(fl, j + 1) && size1 == size[bp := size[bp] + size[q]]
    ensures q in ptr && ListOk(fl1, ptr[fl[j] := ptr[q]], size1) && Joining(fl1, size1, j, bp)
    ensures End(size1, bp) == End(size, q)
  {
    CoalescedAscends(fl, size);
    UnlinkCircular(fl, ptr, j + 1);
    UpperGap(fl, size, j, bp);
    UpperCoalesced(fl, size, j, bp);
  }

  lemma UpperCoalesced(fl: seq<nat>, size: Sizes, j: nat, bp: nat)
    requires Coalesced(fl, size) && j + 1 < |fl| && bp in size && bp !in fl
    ensures Coalesced(Dropped(fl, j + 1), size[bp := size[bp] + size[fl[j + 1]]])
  {
    DropCoalesced(fl, size, j + 1);
    assert forall x :: x in Dropped(fl, j + 1) ==> x in fl;
    FreshSize(Dropped(fl, j + 1), size, bp, size[bp] + size[fl[j + 1]]);
  }

  lemma JoinUpperUnits(fl: seq<nat>, size: Sizes, j: nat, bp: nat)
    requires Coalesced(fl, size) && j + 1 < |fl| && bp in size && bp !in fl
    ensures var (fl1, size1) := (Dropped(fl, j + 1), size[bp := size[bp] + size[fl[j + 1]]]);
            AllIn(fl1, size1) && Units(fl1, size1) + size1[bp] == Units(fl, size) + size[bp]
  {
    var (fl1, size1) := (Dropped(fl, j + 1), size[bp := size[bp] + size[fl[j + 1]]]);
    DropUnits(fl, size, j + 1);
    assert forall i :: 0 <= i < |fl1| ==> fl1[i] in fl;
    UnitsFrame(fl1, size, fl1, size1, |fl1|);
  }

  lemma UpperGap(fl: seq<nat>, size: Sizes, j: nat, bp: nat)
    requires Coalesced(fl, size) && j + 1 < |fl| && bp in size && fl[j] < bp && End(size, bp) == fl[j + 1]
    requires Ascending(fl) && End(size, fl[j]) <= bp && bp !in fl
    ensures var (fl1, q) := (Dropped(fl, j + 1), fl[j + 1]);
            var size1 := size[bp := size[bp] + size[q]];
            && End(size1, bp) == End(size, q) && fl1[j] == fl[j] && End(size1, fl1[j]) <= bp
            && (j + 1 < |fl1| ==> bp < fl1[j + 1] && End(size1, bp) < fl1[j + 1]) && bp !in fl1
  {
    var fl1 := Dropped(fl, j + 1);
    assert forall x :: x in fl1 ==> x in fl;
    assert fl[j] in fl;
    if j + 1 < |fl1| {
      assert fl1[j + 1] == fl[j + 2];
      assert End(size, fl[j + 1]) < fl[j + 2];
    }
  }

  /** p->s.size += bp->s.size: bp becomes the tail of its lower neighbour. */
  lemma JoinLower(fl: seq<nat>, ptr: Links, size: Sizes, j: nat, bp: nat)
    requires ListOk(fl, ptr, size) && Joining(fl, size, j, bp) && j > 0 && End(size, fl[j]) == bp
    ensures var size' := size[fl[j] := size[fl[j]] + size[bp]];
            ListOk(fl, ptr, size') && Units(fl, size') == Units(fl, size) + size[bp] &&
              End(size', fl[j]) == End(size, bp)
  {
    Resize(fl, size, j, size[fl[j]] + size[bp]);
    ResizeUnits(fl, size, j, size[fl[j]] + size[bp]);
  }

  // ---------- handed-out blocks stay clear of the list ----------

  lemma OffUpper(fl: seq<nat>, size: Sizes, j: nat, bp: nat, a: nat, e: nat)
    requires Coalesced(fl, size) && j + 1 < |fl| && bp in size && bp !in fl && End(size, bp) == fl[j + 1] && a < e
    requires OffList(fl, size, a, e) && Apart(a, e, bp, End(size, bp))
    ensures var (fl1, size1) := (Dropped(fl, j + 1), size[bp := size[bp] + size[fl[j + 1]]]);
            OffList(fl1, size1, a, e) && Apart(a, e, bp, End(size1, bp))
  {
    var (fl1, size1) := (Dropped(fl, j + 1), size[bp := size[bp] + size[fl[j + 1]]]);
    forall i | 0 <= i < |fl1|
      ensures fl1[i] in size1 && Apart(a, e, fl1[i], End(size1, fl1[i]))
    {
      assert fl1[i] == fl[if i < j + 1 then i else i + 1] && fl1[i] in fl;
    }
    assert Apart(a, e, fl[j + 1], End(size, fl[j + 1]));
  }

  lemma OffLower(fl: seq<nat>, size: Sizes, j: nat, bp: nat, a: nat, e: nat)
    requires Coalesced(fl, size) && j < |fl| && bp in size && End(size, fl[j]) == bp && a < e
    requires OffList(fl, size, a, e) && Apart(a, e, bp, End(size, bp))
    ensures OffList(fl, size[fl[j] := size[fl[j]] + size[bp]], a, e)
  {
    CoalescedAscends(fl, size);
    assert Apart(a, e, fl[j], End(size, fl[j]));
  }

  lemma OffInsert(fl: seq<nat>, size: Sizes, k: nat, bp: nat, a: nat, e: nat)
    requires OffList(fl, size, a, e) && k <= |fl| && bp in size && Apart(a, e, bp, End(size, bp))
    ensures OffList(Inserted(fl, k, bp), size, a, e)
  {
    var fl' := Inserted(fl, k, bp);
    forall i | 0 <= i < |fl'|
      ensures fl'[i] in size && Apart(a, e, fl'[i], End(size, fl'[i]))
    {
      if i != k {
        assert fl'[i] == fl[if i < k then i else i - 1];
      }
    }
  }

  /** The other handed-out blocks, seen while bp is between the two states. */
  predicate RestOk(base: nat, fl: seq<nat>, size: Sizes, rest: seq<Chunk>, bp: nat) {
    bp in size && LiveOk(base, fl, size, rest) && OffLive(rest, bp, End(size, bp)) && size[bp] > 0
  }

  lemma DropRest(base: nat, fl: seq<nat>, size: Sizes, live: seq<Chunk>, k: nat)
    requires LiveOk(base, fl, size, live) && k < |live|
    ensures RestOk(base, fl, size, Drop(live, k), live[k].addr)
  {
    var rest := Drop(live, k);
    assert forall i :: 0 <= i < |rest| ==> rest[i] == live[if i < k then i else i + 1];
  }

  lemma RestUpper(base: nat, fl: seq<nat>, size: Sizes, rest: seq<Chunk>, j: nat, bp: nat)
    requires RestOk(base, fl, size, rest, bp) && Coalesced(fl, size) && j + 1 < |fl| && bp !in fl &&
             End(size, bp) == fl[j + 1]
    ensures RestOk(base, Dropped(fl, j + 1), size[bp := size[bp] + size[fl[j + 1]]], rest, bp)
  {
    forall i | 0 <= i < |rest|
      ensures var (fl1, size1) := (Dropped(fl, j + 1), size[bp := size[bp] + size[fl[j + 1]]]);
              OffList(fl1, size1, rest[i].addr, rest[i].End()) && Apart(bp, End(size1, bp), rest[i].addr, rest[i].End())
    {
      OffUpper(fl, size, j, bp, rest[i].addr, rest[i].End());
    }
  }

  lemma RestLower(base: nat, fl: seq<nat>, size: Sizes, rest: seq<Chunk>, j: nat, bp: nat)
    requires RestOk(base, fl, size, rest, bp) && Coalesced(fl, size) && 0 < j < |fl| && End(size, fl[j]) == bp
    ensures LiveOk(base, fl, size[fl[j] := size[fl[j]] + size[bp]], rest)
  {
    forall i | 0 <= i < |rest|
      ensures OffList(fl, size[fl[j] := size[fl[j]] + size[bp]], rest[i].addr, rest[i].End()) && rest[i].addr != fl[j]
    {
      assert OffList(fl, size, rest[i].addr, rest[i].End());
      assert Apart(rest[i].addr, rest[i].End(), fl[j], End(size, fl[j]));
      OffLower(fl, size, j, bp, rest[i].addr, rest[i].End());
    }
  }

  lemma RestInsert(base: nat, fl: seq<nat>, size: Sizes, rest: seq<Chunk>, k: nat, bp: nat)
    requires RestOk(base, fl, size, rest, bp) && k <= |fl|
    ensures LiveOk(base, Inserted(fl, k, bp), size, rest)
  {
    forall i | 0 <= i < |rest|
      ensures OffList(Inserted(fl, k, bp), size, rest[i].addr, rest[i].End())
    {
      OffInsert(fl, size, k, bp, rest[i].addr, rest[i].End());
    }
  }

  lemma NotListed(base: nat, fl: seq<nat>, size: Sizes, live: seq<Chunk>, k: nat)
    requires Coalesced(fl, size) && fl[0] == base && LiveOk(base, fl, size, live) && k < |live|
    ensures base < live[k].addr && live[k].addr !in fl
  {
    var c := live[k];
    assert OffList(fl, size, c.addr, c.End());
    forall i | 0 <= i < |fl|
      ensures fl[i] != c.addr
    {
      assert Apart(c.addr, c.End(), fl[i], End(size, fl[i]));
    }
  }

  /** A handed-out block starts at or after the end of the block below it, and ends at or before the next. */
  lemma InGap(base: nat, fl: seq<nat>, size: Sizes, live: seq<Chunk>, k: nat, j: nat)
    requires Coalesced(fl, size) && fl[0] == base && LiveOk(base, fl, size, live) && k < |live|
    requires Between(fl, j, live[k].addr)
    ensures End(size, fl[j]) <= live[k].addr && (j + 1 < |fl| ==> live[k].End() <= fl[j + 1])
  {
    var c := live[k];
    assert OffList(fl, size, c.addr, c.End());
    assert Apart(c.addr, c.End(), fl[j], End(size, fl[j]));
    if j + 1 < |fl| {
      assert Apart(c.addr, c.End(), fl[j + 1], End(size, fl[j + 1]));
    }
  }

  // ---------- the free bytes themselves ----------

  lemma DropBytes(fl: seq<nat>, size: Sizes, k: nat, x: nat)
    requires AllIn(fl, size) && k < |fl|
    ensures InFree(Dropped(fl, k), size, x) || fl[k] <= x < End(size, fl[k]) <==> InFree(fl, size, x)
  {
    var fl' := Dropped(fl, k);
    assert forall i :: 0 <= i < |fl'| ==> fl'[i] == fl[if i < k then i else i + 1];
    if i :| 0 <= i < |fl| && fl[i] <= x < End(size, fl[i]) && i != k {
      assert fl'[if i < k then i else i - 1] == fl[i];
    }
  }

  lemma InsertBytes(fl: seq<nat>, size: Sizes, k: nat, b: nat, x: nat)
    requires AllIn(fl, size) && k <= |fl| && b in size
    ensures InFree(Inserted(fl, k, b), size, x) <==> InFree(fl, size, x) || b <= x < End(size, b)
  {
    assert Dropped(Inserted(fl, k, b), k) == fl;
    assert forall i :: 0 <= i < |fl| + 1 ==>
           Inserted(fl, k, b)[i] == if i < k then fl[i] else if i == k then b else fl[i - 1];
    DropBytes(Inserted(fl, k, b), size, k, x);
  }

  /** Changing the size of block k only, from the end. */
  lemma ResizeBytes(fl: seq<nat>, size: Sizes, k: nat, n: nat, x: nat)
    requires Coalesced(fl, size) && k < |fl|
    ensures AllIn(fl, size[fl[k] := n])
    ensures n >= size[fl[k]] ==>
              (InFree(fl, size[fl[k] := n], x) <==> InFree(fl, size, x) || End(size, fl[k]) <= x < fl[k] + HDR * n)
    ensures n <= size[fl[k]] ==>
              (InFree(fl, size, x) <==> InFree(fl, size[fl[k] := n], x) || fl[k] + HDR * n <= x < End(size, fl[k]))
  {
    CoalescedAscends(fl, size);
    var size' := size[fl[k] := n];
    assert forall i :: 0 <= i < |fl| && i != k ==> End(size', fl[i]) == End(size, fl[i]);
  }

  lemma BytesTrans(fl: seq<nat>, size: Sizes, a: nat, e: nat, fl1: seq<nat>, size1: Sizes, fl2: seq<nat>, size2: Sizes,
                   a': nat, e': nat)
    requires SameBytes(fl, size, a, e, fl1, size1, 0, 0) && SameBytes(fl1, size1, 0, 0, fl2, size2, a', e')
    ensures SameBytes(fl, size, a, e, fl2, size2, a', e')
  {}

  lemma FreshBytes(fl: seq<nat>, size: Sizes, b: nat, n: nat, x: nat)
    requires Coalesced(fl, size) && b !in fl
    ensures InFree(fl, size[b := n], x) <==> InFree(fl, size, x)
  {
    FreshSize(fl, size, b, n);
  }

  // ---------- sbrk ----------

  /** A 32-bit word read as an int. */
  function Int32(u: nat): int
    requires u < U32
  {
    if u < KERNBASE then u else u - U32
  }

  /** The int that morecore(nu) passes to sbrk: the product wraps at 32 bits. */
  function SbrkArg(nu: nat): int {
    Int32(HDR * Core(nu) % U32)
  }

  /** What sbrk(n) answers to a process of sz bytes; grant says whether allocuvm finds frames. */
  function Answer(sz: nat, n: int, grant: bool): Option<nat> {
    if n > 0 then (if sz + n < KERNBASE && grant then Some(sz) else None)
    else if n < 0 && sz + n == 0 then None
    else Some(sz)
  }

  /** The memory there is after sbrk(n): a negative argument takes memory away unless it goes below zero. */
  function Mapped(sz: nat, n: int, grant: bool): nat {
    if n > 0 then (if sz + n < KERNBASE && grant then sz + n else sz)
    else if sz + n >= 0 then sz + n
    else sz
  }

  /** The end of the page that address a - 1 is in: memory comes in whole pages. */
  function PageUp(a: nat): nat {
    (a + PGSIZE - 1) / PGSIZE * PGSIZE
  }

  /** After sbrk(n) has answered sz, a header stored there lies outside the pages of the process. */
  predicate Faults(sz: nat, n: int, grant: bool) {
    sz + HDR > PageUp(Mapped(sz, n, grant))
  }

  /** What a call of malloc comes to: a block, null, or the end of the process. */
  datatype Got = Block(addr: nat) | Null | Fault

  /** A process: the size the kernel records, and the memory there really is. */
  class Process {
    var size: nat
    var mapped: nat

    /** sys_sbrk through growproc, allocuvm and deallocuvm. */
    method Sbrk(n: int, grant: bool) returns (a: Option<nat>)
      requires mapped == size < KERNBASE && 0 <= n + KERNBASE < U32
      modifies this
      ensures a == Answer(old(size), n, grant) && mapped == Mapped(old(size), n, grant)
      ensures a.Some? || n > 0 ==> size == mapped
    {
      var addr := size;
      if n > 0 {
        if size + n >= KERNBASE || !grant {
          return None;
        }
        mapped := size + n;
        size := mapped;
      } else if n < 0 {
        var newsz := (size + n) % U32;
        if newsz < size {
          mapped := newsz;
          if newsz == 0 {
            return None;
          }
          size := newsz;
        }
      }
      return Some(addr);
    }
  }

  ghost predicate Heaped(base: nat, freep: nat, fl: seq<nat>, ptr: Links, size: Sizes, live: seq<Chunk>, got: nat) {
    forall k {:trigger See(k)} :: k == INSIDE ==> SoundNow(base, freep, fl, ptr, size, live, got)
  }

  ghost predicate SoundNow(base: nat, freep: nat, fl: seq<nat>, ptr: Links, size: Sizes, live: seq<Chunk>, got: nat) {
    if freep == 0 then fl == [] && live == [] && got == 0 else
      fl != [] && fl[0] == base && freep in fl && ListOk(fl, ptr, size) && LiveOk(base, fl, size, live) &&
      Units(fl, size) + LiveUnits(live) == got
  }

  class Heap {
    const base: nat
    var freep: nat // 0 until the first malloc
    var ptr: Links
    var size: Sizes

    ghost var fl: seq<nat>
    ghost var live: seq<Chunk>
    ghost var got: nat // units obtained from sbrk

    /** The list is in order, and free, live and obtained units balance. */
    ghost predicate Valid()
      reads this
    {
      base > 0 && AllIn(fl, size) && Heaped(base, freep, fl, ptr, size, live, got)
    }

    constructor (base: nat)
      requires base > 0
      ensures Valid() && this.base == base && freep == 0
    {
      this.base := base;
      freep, ptr, size := 0, map[], map[];
      fl, live, got := [], [], 0;
      new;
      assert SoundNow(base, freep, fl, ptr, size, live, got);
    }

    /** The search loop of free: it always ends at the list entry that bp belongs after. */
    method FindSlot(bp: nat) returns (p: nat, ghost j: nat)
      requires Valid() && freep != 0 && base < bp && bp !in fl
      ensures Between(fl, j, bp) && p == fl[j]
    {
      assert See(INSIDE);
      CoalescedAscends(fl, size);
      p := freep;
      ghost var i: nat :| i < |fl| && fl[i] == freep;
      j := Place(fl, bp);
      PlaceBetween(fl, bp);
      assert See(i);
      while !(bp > p && bp < ptr[p])
        invariant i < |fl| && p == fl[i] && See(i)
        decreases if i <= j then j - i else |fl| + j - i
      {
        StopsAt(fl, ptr, i, j, bp);
        if p >= ptr[p] && (bp > p || bp < ptr[p]) {
          return;
        }
        p := ptr[p];
        i := NextIndex(fl, i);
        assert See(i);
      }
      StopsAt(fl, ptr, i, j, bp);
    }

    /** The half of free that looks up: merge with the block above, or point at it. */
    method JoinAbove(bp: nat, p: nat, ghost j: nat, ghost rest: seq<Chunk>) returns (ghost links: Links)
      requires Placed(base, fl, ptr, size, rest, j, bp, p)
      modifies this`ptr, this`size, this`fl
      ensures Half(base, old(fl), old(size), fl, links, ptr, size, rest, j, bp, p)
    {
      var q := ptr[p];
      if bp + HDR * size[bp] == q {
        AboveMerges(base, fl, ptr, size, rest, j, bp, p, q);
        links := ptr[p := ptr[q]];
        size := size[bp := size[bp] + size[q]];
        ptr := ptr[bp := ptr[q]];
        fl := Dropped(fl, j + 1);
      } else {
        AboveKeeps(base, fl, ptr, size, rest, j, bp, p, q);
        links := ptr;
        ptr := ptr[bp := q];
      }
    }

    /** The half of free that looks down: merge into the block below, or link behind it. */
    method JoinBelow(bp: nat, p: nat, ghost j: nat, ghost rest: seq<Chunk>, ghost links: Links, ghost fl0: seq<nat>,
                     ghost size0: Sizes)
      requires Half(base, fl0, size0, fl, links, ptr, size, rest, j, bp, p)
      modifies this`ptr, this`size, this`fl
      ensures Joined(base, fl0, size0, fl, ptr, size, rest, bp, p)
    {
      if p + HDR * size[p] == bp {
        BelowMerges(base, fl0, size0, fl, links, ptr, size, rest, j, bp, p);
        size := size[p := size[p] + size[bp]];
        ptr := ptr[p := ptr[bp]];
      } else {
        BelowInserts(base, fl0, size0, fl, links, ptr, size, rest, j, bp, p);
        ptr := ptr[p := bp];
        fl := Inserted(fl, j + 1, bp);
      }
    }

    /** The tail of free, once its place is found. */
    method Join(bp: nat, p: nat, ghost j: nat, ghost rest: seq<Chunk>)
      requires Placed(base, fl, ptr, size, rest, j, bp, p)
      modifies this`ptr, this`size, this`fl, this`freep
      ensures Joined(base, old(fl), old(size), fl, ptr, size, rest, bp, p) && freep == p
    {
      ghost var links := JoinAbove(bp, p, j, rest);
      JoinBelow(bp, p, j, rest, links, old(fl), old(size));
      freep := p;
    }

    /**
     free: the block joins the list, merged with whichever neighbours it touches; every other block
     keeps its place, and no unit is lost.
     */
    method Free(ap: nat, ghost k: nat)
      requires Valid() && k < |live| && ap == live[k].addr + HDR
      modifies this
      ensures Valid() && live == Drop(old(live), k) && got == old(got) && freep != 0
      ensures Fit(fl, size, old(live)[k].size)
      ensures SameBytes(old(fl), old(size), old(live)[k].addr, old(live)[k].End(), fl, size, 0, 0)
      ensures forall sz: nat :: old(Below(fl, size, live, sz)) ==> Below(fl, size, live, sz)
    {
      var bp := ap - HDR;
      HandedOut(base, freep, fl, ptr, size, live, got, k);
      var p;
      ghost var j;
      p, j := FindSlot(bp);
      MakePlaced(base, freep, fl, ptr, size, live, got, k, j, bp, p);
      live := Drop(live, k);
      Join(bp, p, j, live);
      IsHeaped(base, old(freep), old(fl), old(ptr), old(size), old(live), got, k, fl, ptr, size, live, bp, p);
      forall sz: nat | old(Below(fl, size, live, sz))
        ensures Below(fl, size, live, sz)
      {
        BelowFree(old(fl), old(size), old(live), k, fl, size, sz);
      }
    }

    /**
     morecore: what sbrk answers is taken for new core, and enters the list through free. The size is
     stored there first, and the process dies if no page of its own is there; p is then of no use.
     */
    method Morecore(nu: nat, proc: Process, grant: bool, ghost core: Option<nat>) returns (p: nat, fault: bool)
      requires Valid() && freep != 0 && proc.mapped == proc.size < KERNBASE &&
               core == Answer(proc.size, SbrkArg(nu), grant)
      requires core.Some? ==> NewCore(base, fl, size, live, core.value, Core(nu))
      modifies this, proc
      ensures proc.mapped == Mapped(old(proc.size), SbrkArg(nu), grant)
      ensures core.Some? || SbrkArg(nu) > 0 ==> proc.size == proc.mapped
      ensures fault <==> core.Some? && Faults(old(proc.size), SbrkArg(nu), grant)
      ensures !fault ==> Valid() && live == old(live) && freep != 0
      ensures !fault ==>
                if core.None? then p == 0 && got == old(got) && fl == old(fl) && size == old(size)
                else p == freep && got == old(got) + Core(nu) && Fit(fl, size, nu)
      ensures core.Some? && !fault ==>
                SameBytes(old(fl), old(size), core.value, core.value + HDR * Core(nu), fl, size, 0, 0)
    {
      var n := if nu < MINCORE then MINCORE else nu;
      var a := proc.Sbrk(Int32(n * HDR % U32), grant);
      fault := a.Some? && a.value + HDR > PageUp(proc.mapped);
      if a.None? || fault {
        return 0, fault;
      }
      AddCore(a.value, n);
      assert Fit(fl, size, nu);
      p := freep;
    }

    /** The new block is handed out, and freed at once. */
    method AddCore(hp: nat, n: nat)
      requires Valid() && freep != 0 && n > 0 && NewCore(base, fl, size, live, hp, n)
      modifies this
      ensures Valid() && live == old(live) && freep != 0 && got == old(got) + n && Fit(fl, size, n)
      ensures SameBytes(old(fl), old(size), hp, hp + HDR * n, fl, size, 0, 0)
    {
      ghost var chunk := Chunk(hp, n);
      HandOut(base, freep, fl, ptr, size, live, got, hp, n);
      size := size[hp := n];
      live := live + [chunk];
      got := got + n;
      assert live[..|live| - 1] == old(live);
      Free(hp + HDR, |live| - 1);
      assert Drop(old(live) + [chunk], |old(live)|) == old(live);
    }

    /** An exact fit comes off the list. */
    method TakeBlock(prevp: nat, p: nat, ghost i: nat)
      requires Valid() && freep != 0 && 0 < i < |fl| && p == fl[i] && prevp == fl[i - 1]
      modifies this
      ensures Valid() && freep != 0 && got == old(got) && live == old(live) + [Chunk(p, old(size)[p])]
      ensures SameBytes(old(fl), old(size), 0, 0, fl, size, p, old(End(size, p)))
    {
      CarveWhole(base, freep, fl, ptr, size, live, got, i, Dropped(fl, i), live + [Chunk(p, size[p])]);
      live := live + [Chunk(p, size[p])];
      ptr := ptr[prevp := ptr[p]];
      fl := Dropped(fl, i);
      freep := prevp;
    }

    /** A larger block keeps its place and loses its tail. */
    method CutBlock(prevp: nat, p: nat, n: nat, ghost i: nat) returns (a: nat)
      requires Valid() && freep != 0 && 0 < i < |fl| && p == fl[i] && prevp == fl[i - 1] && 0 < n < size[p]
      modifies this
      ensures Valid() && freep != 0 && got == old(got) && live == old(live) + [Chunk(a, n)]
      ensures SameBytes(old(fl), old(size), 0, 0, fl, size, a, a + HDR * n)
    {
      a := p + HDR * (size[p] - n);
      var cut := size[p := size[p] - n][a := n];
      CarveTail(base, freep, fl, ptr, size, live, got, i, n, a, cut, live + [Chunk(a, n)]);
      live := live + [Chunk(a, n)];
      size := cut;
      freep := prevp;
    }

    /** The block at p = fl[i] is large enough: unlink it, or cut the request off its end. */
    method Carve(prevp: nat, p: nat, n: nat, ghost i: nat) returns (ap: nat)
      requires Valid() && freep != 0 && 0 < i < |fl| && p == fl[i] && prevp == fl[i - 1] && 0 < n <= size[p]
      modifies this
      ensures Valid() && freep != 0 && got == old(got) && ap >= HDR && live == old(live) + [Chunk(ap - HDR, n)]
      ensures SameBytes(old(fl), old(size), 0, 0, fl, size, ap - HDR, ap - HDR + HDR * n)
    {
      if size[p] == n {
        TakeBlock(prevp, p, i);
        ap := p + HDR;
      } else {
        var a := CutBlock(prevp, p, n, i);
        ap := a + HDR;
      }
    }

    /** The first call makes a list of base alone. */
    method Start()
      requires Valid()
      modifies this
      ensures Valid() && freep != 0 && live == old(live) && got == old(got)
      ensures if old(freep) == 0 then fl == [base] && size == map[base := 0] && live == []
              else fl == old(fl) && size == old(size)
    {
      assert See(INSIDE);
      if freep == 0 {
        ptr, size, freep := map[base := base], map[base := 0], base;
        fl := [base];
        assert UnitsTo(fl, size, 1) == UnitsTo(fl, size, 0) + size[fl[0]];
      }
    }

    /** One lap of malloc's loop, from the entry after freep round to freep: the first block that is large enough. */
    method OneLap(nunits: nat) returns (found: bool, prevp: nat, p: nat, ghost i: nat)
      requires Valid() && freep != 0 && nunits > 0
      ensures found <==> Fit(fl, size, nunits)
      ensures found ==> 0 < i < |fl| && p == fl[i] && prevp == fl[i - 1] && size[p] >= nunits
      ensures !found ==> p == freep
    {
      assert See(INSIDE);
      ghost var f: nat :| f < |fl| && fl[f] == freep;
      ghost var t := 0;
      SearchStart(fl, ptr, size, f, nunits);
      prevp := freep;
      p := ptr[prevp];
      while size[p] < nunits
        invariant Searching(fl, size, f, t, prevp, p, nunits)
        decreases |fl| - t
      {
        if p == freep {
          SearchFail(fl, ptr, size, f, t, prevp, p, nunits);
          return false, prevp, p, 0;
        }
        SearchStep(fl, ptr, size, f, t, prevp, p, nunits);
        t := t + 1;
        prevp := p;
        p := ptr[p];
      }
      SearchHit(fl, ptr, size, f, t, prevp, p, nunits);
      i := LapIndex(fl, f, t);
      found := true;
    }

    /** malloc's loop: laps separated by morecore. The second lap, if there is one, always finds a block. */
    method Search(nunits: nat, proc: Process, grant: bool, ghost core: Option<nat>)
                  returns (r: Got, ghost asked: bool)
      requires Valid() && freep != 0 && nunits > 0
      requires proc.mapped == proc.size < KERNBASE && core == Answer(proc.size, SbrkArg(nunits), grant)
      requires core.Some? ==> NewCore(base, fl, size, live, core.value, Core(nunits))
      modifies this, proc
      ensures asked <==> !Fit(old(fl), old(size), nunits)
      ensures r.Null? <==> asked && core.None?
      ensures r.Fault? <==> asked && core.Some? && Faults(old(proc.size), SbrkArg(nunits), grant)
      ensures proc.mapped == if asked then Mapped(old(proc.size), SbrkArg(nunits), grant) else old(proc.size)
      ensures !r.Null? || SbrkArg(nunits) > 0 ==> proc.size == proc.mapped
      ensures !r.Fault? ==> Valid() && freep != 0
      ensures r.Block? ==> r.addr >= HDR && live == old(live) + [Chunk(r.addr - HDR, nunits)]
      ensures r.Null? ==> live == old(live) && fl == old(fl) && size == old(size)
      ensures !r.Fault? ==> got == old(got) + if asked && core.Some? then Core(nunits) else 0
      ensures r.Block? && !asked ==>
                SameBytes(old(fl), old(size), 0, 0, fl, size, r.addr - HDR, r.addr - HDR + HDR * nunits)
      ensures r.Block? && asked ==>
                SameBytes(old(fl), old(size), core.value, core.value + HDR * Core(nunits), fl, size,
                          r.addr - HDR, r.addr - HDR + HDR * nunits)
    {
      asked := false;
      while true
        invariant Valid() && freep != 0 && live == old(live)
        invariant asked ==> core.Some? && !Faults(old(proc.size), SbrkArg(nunits), grant)
        invariant asked ==> Fit(fl, size, nunits) && !Fit(old(fl), old(size), nunits)
        invariant asked ==> SameBytes(old(fl), old(size), core.value, core.value + HDR * Core(nunits), fl, size, 0, 0)
        invariant !asked ==> fl == old(fl) && size == old(size)
        invariant got == old(got) + if asked then Core(nunits) else 0
        invariant proc.size == proc.mapped == if asked then Mapped(old(proc.size), SbrkArg(nunits), grant)
                  else old(proc.size)
        decreases !asked
      {
        var found, prevp, p;
        ghost var i;
        found, prevp, p, i := OneLap(nunits);
        if found {
          ghost var fl1, size1 := fl, size;
          var ap := Carve(prevp, p, nunits, i);
          r := Block(ap);
          if asked {
            BytesTrans(old(fl), old(size), core.value, core.value + HDR * Core(nunits), fl1, size1, fl, size,
                       ap - HDR, ap - HDR + HDR * nunits);
          }
          return;
        }
        asked := true;
        var fault;
        p, fault := Morecore(nunits, proc, grant, core);
        if fault {
          return Fault, asked;
        }
        if p == 0 {
          return Null, asked;
        }
      }
    }

    lemma CoreIsNew(sz: nat, n: nat)
      requires Valid() && freep != 0 && base + HDR <= sz && Below(fl, size, live, sz)
      ensures NewCore(base, fl, size, live, sz, n) && Coalesced(fl, size)
    {
      assert See(INSIDE);
      BelowNew(base, fl, size, live, sz, n);
    }

    /** A block larger than the address space is not on the list. */
    lemma NoneFits(proc: Process, n: nat)
      requires Valid() && Backed(proc) && n >= KERNBASE / HDR
      ensures freep == 0 || !Fit(fl, size, n)
    {
      assert See(INSIDE);
      if freep != 0 {
        TooMuch(fl, size, live, proc.size, n);
      }
    }

    /** Every block, free or handed out, lies in the process's memory. */
    ghost predicate Backed(proc: Process)
      reads this, proc
    {
      && proc.mapped == proc.size < KERNBASE && base + HDR <= proc.size
      && (freep != 0 ==> Below(fl, size, live, proc.size))
    }

    /**
     malloc: a block of the units asked for, clear of every other block; null, when no free block is large
     enough and sbrk refuses; or the end of the process, when sbrk grants an address with no memory behind
     it. The block has the bytes asked for, and memory behind them, exactly when nbytes is at most LARGEST,
     and up to there the process lives and all stays within its memory.
     */
    method Malloc(nbytes: nat, proc: Process, grant: bool) returns (r: Got, ghost asked: bool)
      requires Valid() && Backed(proc) && nbytes < U32
      modifies this, proc
      ensures asked <==> old(freep == 0 || !Fit(fl, size, UnitsFor(nbytes)))
      ensures r.Null? <==> asked && Answer(old(proc.size), SbrkArg(UnitsFor(nbytes)), grant).None?
      ensures r.Fault? <==> asked && !r.Null? && Faults(old(proc.size), SbrkArg(UnitsFor(nbytes)), grant)
      ensures !r.Fault? ==> Valid() && freep != 0
      ensures r.Block? ==> r.addr >= HDR && live == old(live) + [Chunk(r.addr - HDR, UnitsFor(nbytes))]
      ensures r.Null? ==> live == old(live)
      ensures !r.Fault? ==> got == old(got) + if asked && r.Block? then Core(UnitsFor(nbytes)) else 0
      ensures r.Block? && old(freep) != 0 ==>
                SameBytes(old(fl), old(size), if asked then old(proc.size) else 0,
                          if asked then old(proc.size) + HDR * Core(UnitsFor(nbytes)) else 0,
                          fl, size, r.addr - HDR, r.addr - HDR + HDR * UnitsFor(nbytes))
      ensures r.Block? ==> (HDR * (UnitsFor(nbytes) - 1) >= nbytes && Backed(proc) <==> nbytes <= LARGEST)
      ensures nbytes <= LARGEST ==> !r.Fault? && Backed(proc)
    {
      var nunits := (nbytes + HDR - 1) % U32 / HDR + 1;
      Start();
      assert old(freep) == 0 ==> !Fit(fl, size, nunits);
      ghost var sz, n := proc.size, SbrkArg(nunits);
      BelowBase(base, sz);
      ghost var fl1, size1, live1, core := fl, size, live, Answer(sz, n, grant);
      CoreIsNew(sz, Core(nunits));
      if nbytes <= LARGEST {
        NoFault(sz, nbytes, grant);
      }
      r, asked := Search(nunits, proc, grant, core);
      if r.Block? {
        MallocExact(fl1, size1, live1, sz, nbytes, asked, grant, fl, size, r.addr - HDR);
      }
    }
  }

  /** A request of at most LARGEST bytes asks for more than a header, and what is granted is there. */
  lemma NoFault(sz: nat, nbytes: nat, grant: bool)
    requires sz < KERNBASE && nbytes <= LARGEST
    ensures SbrkArg(UnitsFor(nbytes)) > 0
    ensures Answer(sz, SbrkArg(UnitsFor(nbytes)), grant).Some? ==> !Faults(sz, SbrkArg(UnitsFor(nbytes)), grant)
    ensures Answer(sz, SbrkArg(UnitsFor(nbytes)), grant).None? ==> Mapped(sz, SbrkArg(UnitsFor(nbytes)), grant) == sz
  {
    LargestExact(nbytes);
  }

  /**
   malloc(2^32 - 8) never fails: if the last page of the process has no room for a header the process
   dies, and if it has, a block comes back with no memory behind it.
   */
  method HugeMalloc(heap: Heap, proc: Process, grant: bool) returns (r: Got)
    requires heap.Valid() && heap.Backed(proc)
    modifies heap, proc
    ensures if old(proc.size) + HDR > PageUp(old(proc.size)) then r.Fault? else r.Block? && !heap.Backed(proc)
  {
    NothingAskedFor(proc.size, grant);
    LargestExact(U32 - HDR);
    heap.NoneFits(proc, UnitsFor(U32 - HDR));
    ghost var asked;
    r, asked := heap.Malloc(U32 - HDR, proc, grant);
  }

  // ---------- malloc's search ----------

  /** malloc is at the t'th entry after fl[f], and none before it was large enough. */
  predicate Searching(fl: seq<nat>, size: Sizes, f: nat, t: nat, prevp: nat, p: nat, n: nat) {
    f < |fl| && t < |fl| && p in size && forall k {:trigger See(k)} :: k == AROUND ==>
      SearchingAt(fl, size, f, t, prevp, p, n)
  }

  predicate SearchingAt(fl: seq<nat>, size: Sizes, f: nat, t: nat, prevp: nat, p: nat, n: nat)
    requires f < |fl| && t < |fl|
  {
    AllIn(fl, size) && p == Lap(fl, f)[t] && (prevp == if t == 0 then fl[f] else Lap(fl, f)[t - 1]) &&
    forall u: nat {:trigger See(u)} :: See(u) && u < t ==> Lap(fl, f)[u] in size && size[Lap(fl, f)[u]] < n
  }

  lemma SearchStart(fl: seq<nat>, ptr: Links, size: Sizes, f: nat, n: nat)
    requires ListOk(fl, ptr, size) && f < |fl|
    ensures fl[f] in ptr && Searching(fl, size, f, 0, fl[f], ptr[fl[f]], n)
  {
    assert See(AROUND);
    LapNext(fl, ptr, f, 0);
    assert Lap(fl, f)[0] == fl[LapIndex(fl, f, 0)];
  }

  lemma SearchStep(fl: seq<nat>, ptr: Links, size: Sizes, f: nat, t: nat, prevp: nat, p: nat, n: nat)
    requires ListOk(fl, ptr, size) && Searching(fl, size, f, t, prevp, p, n) && size[p] < n && p != fl[f]
    ensures p in ptr && t + 1 < |fl| && Searching(fl, size, f, t + 1, p, ptr[p], n)
  {
    assert See(AROUND);
    assert t + 1 < |fl| by {
      CoalescedAscends(fl, size);
      LapEnd(fl, f, t);
    }
    LapNext(fl, ptr, f, t + 1);
    LapIn(fl, size, f, t + 1);
  }

  lemma SearchFail(fl: seq<nat>, ptr: Links, size: Sizes, f: nat, t: nat, prevp: nat, p: nat, n: nat)
    requires ListOk(fl, ptr, size) && Searching(fl, size, f, t, prevp, p, n) && size[p] < n && p == fl[f]
    ensures !Fit(fl, size, n)
  {
    assert See(AROUND);
    CoalescedAscends(fl, size);
    LapEnd(fl, f, t);
    forall u | 0 <= u < |fl|
      ensures Lap(fl, f)[u] in size && size[Lap(fl, f)[u]] < n
    {
      assert See(u);
    }
    LapCovers(fl, size, f, n);
  }

  lemma SearchHit(fl: seq<nat>, ptr: Links, size: Sizes, f: nat, t: nat, prevp: nat, p: nat, n: nat)
    requires ListOk(fl, ptr, size) && Searching(fl, size, f, t, prevp, p, n) && size[p] >= n > 0
    ensures var i := LapIndex(fl, f, t); 0 < i < |fl| && p == fl[i] && prevp == fl[i - 1]
    ensures Fit(fl, size, n)
  {
    assert See(AROUND);
    LapNext(fl, ptr, f, t);
    assert size[fl[LapIndex(fl, f, t)]] >= n;
  }

  lemma SnocLive(live: seq<Chunk>, c: Chunk)
    ensures LiveUnits(live + [c]) == LiveUnits(live) + c.size
  {
    assert (live + [c])[..|live|] == live;
  }

  lemma CarveWhole(base: nat, freep: nat, fl: seq<nat>, ptr: Links, size: Sizes, live: seq<Chunk>, got: nat, i: nat,
                   fl': seq<nat>, live': seq<Chunk>)
    requires Heaped(base, freep, fl, ptr, size, live, got) && freep != 0 && AllIn(fl, size) && base > 0 && 0 < i < |fl|
    requires fl' == Dropped(fl, i) && live' == live + [Chunk(fl[i], size[fl[i]])]
    ensures fl[i] in ptr && AllIn(fl', size) && fl[i - 1] != 0
    ensures Heaped(base, fl[i - 1], fl', ptr[fl[i - 1] := ptr[fl[i]]], size, live', got)
    ensures SameBytes(fl, size, 0, 0, fl', size, fl[i], End(size, fl[i]))
  {
    assert See(INSIDE);
    CarveWholeNow(base, fl, ptr, size, live, i, fl', live');
    NotNull(base, fl, size, i - 1);
    assert SoundNow(base, fl[i - 1], fl', ptr[fl[i - 1] := ptr[fl[i]]], size, live', got);
  }

  lemma NotNull(base: nat, fl: seq<nat>, size: Sizes, i: nat)
    requires Coalesced(fl, size) && fl[0] == base > 0 && i < |fl|
    ensures fl[i] != 0
  {
    CoalescedAscends(fl, size);
  }

  lemma CarveWholeNow(base: nat, fl: seq<nat>, ptr: Links, size: Sizes, live: seq<Chunk>, i: nat, fl': seq<nat>,
                      live': seq<Chunk>)
    requires ListOk(fl, ptr, size) && fl[0] == base && LiveOk(base, fl, size, live) && 0 < i < |fl|
    requires fl' == Dropped(fl, i) && live' == live + [Chunk(fl[i], size[fl[i]])]
    ensures fl[i] in ptr && ListOk(fl', ptr[fl[i - 1] := ptr[fl[i]]], size) && LiveOk(base, fl', size, live')
    ensures fl'[0] == base && fl[i - 1] in fl'
    ensures Units(fl', size) + LiveUnits(live') == Units(fl, size) + LiveUnits(live)
    ensures SameBytes(fl, size, 0, 0, fl', size, fl[i], End(size, fl[i]))
  {
    forall x: nat | See(x)
      ensures InFree(fl', size, x) || fl[i] <= x < End(size, fl[i]) <==> InFree(fl, size, x)
    {
      DropBytes(fl, size, i, x);
    }
    Unlink(fl, ptr, size, i);
    DropUnits(fl, size, i);
    TakeWhole(base, fl, size, live, i);
    SnocLive(live, Chunk(fl[i], size[fl[i]]));
    assert fl'[i - 1] == fl[i - 1];
  }

  lemma CarveTail(base: nat, freep: nat, fl: seq<nat>, ptr: Links, size: Sizes, live: seq<Chunk>, got: nat, i: nat,
                  n: nat, a: nat, size': Sizes, live': seq<Chunk>)
    requires Heaped(base, freep, fl, ptr, size, live, got) && freep != 0 && AllIn(fl, size) && base > 0
    requires 0 < i < |fl| && 0 < n < size[fl[i]]
    requires a == fl[i] + HDR * (size[fl[i]] - n) && live' == live + [Chunk(a, n)]
    requires size' == size[fl[i] := size[fl[i]] - n][a := n]
    ensures AllIn(fl, size') && fl[i - 1] != 0 && Heaped(base, fl[i - 1], fl, ptr, size', live', got)
    ensures SameBytes(fl, size, 0, 0, fl, size', a, a + HDR * n)
  {
    assert See(INSIDE);
    CarveTailNow(base, fl, size, live, i, n, a, size', live');
    NotNull(base, fl, size, i - 1);
    assert SoundNow(base, fl[i - 1], fl, ptr, size', live', got);
  }

  lemma CarveTailNow(base: nat, fl: seq<nat>, size: Sizes, live: seq<Chunk>, i: nat, n: nat, a: nat, size': Sizes,
                     live': seq<Chunk>)
    requires Coalesced(fl, size) && fl[0] == base && LiveOk(base, fl, size, live) && 0 < i < |fl| && 0 < n < size[fl[i]]
    requires a == fl[i] + HDR * (size[fl[i]] - n) && live' == live + [Chunk(a, n)]
    requires size' == size[fl[i] := size[fl[i]] - n][a := n]
    ensures Coalesced(fl, size') && LiveOk(base, fl, size', live') && fl[i - 1] in fl
    ensures Units(fl, size') + LiveUnits(live') == Units(fl, size) + LiveUnits(live)
    ensures SameBytes(fl, size, 0, 0, fl, size', a, a + HDR * n)
  {
    TailBytes(fl, size, live, i, n, a, size');
    TakeTail(base, fl, size, live, i, n, a, size');
    SnocLive(live, Chunk(a, n));
  }

  lemma TailBytes(fl: seq<nat>, size: Sizes, live: seq<Chunk>, i: nat, n: nat, a: nat, size': Sizes)
    requires Coalesced(fl, size) && 0 < i < |fl| && 0 < n < size[fl[i]] && a == fl[i] + HDR * (size[fl[i]] - n)
    requires size' == size[fl[i] := size[fl[i]] - n][a := n]
    ensures SameBytes(fl, size, 0, 0, fl, size', a, a + HDR * n)
  {
    var size1 := size[fl[i] := size[fl[i]] - n];
    CoalescedAscends(fl, size);
    Resize(fl, size, i, size[fl[i]] - n);
    assert a !in fl by {
      assert forall k :: i < k < |fl| ==> End(size, fl[i]) < fl[k];
    }
    forall x: nat | See(x)
      ensures InFree(fl, size', x) || a <= x < a + HDR * n <==> InFree(fl, size, x)
    {
      ResizeBytes(fl, size, i, size[fl[i]] - n, x);
      FreshBytes(fl, size1, a, n, x);
    }
  }

  /** Headers for a payload of nbytes and its own header, in uint arithmetic. */
  function UnitsFor(nbytes: nat): (n: nat)
    requires nbytes < U32
    ensures n > 0
  {
    (nbytes + HDR - 1) % U32 / HDR + 1
  }

  /** The largest request that malloc can honour. */
  const LARGEST: nat := 0x7FFF_FFF0

  /** Rounding up wraps above 2^32 - 8; before that, above LARGEST, what sbrk is asked for is not positive. */
  lemma LargestExact(nbytes: nat)
    requires nbytes < U32
    ensures HDR * (UnitsFor(nbytes) - 1) >= nbytes <==> nbytes <= U32 - HDR
    ensures nbytes <= U32 - HDR ==> (UnitsFor(nbytes) < KERNBASE / HDR <==> nbytes <= LARGEST)
    ensures nbytes <= LARGEST ==> SbrkArg(UnitsFor(nbytes)) == HDR * Core(UnitsFor(nbytes)) > 0
    ensures LARGEST < nbytes <= U32 - HDR ==> SbrkArg(UnitsFor(nbytes)) <= 0
  {}

  /** malloc(2^32 - 8) asks sbrk for nothing, and is given it. */
  lemma NothingAskedFor(sz: nat, grant: bool)
    requires sz < KERNBASE
    ensures SbrkArg(UnitsFor(U32 - HDR)) == 0
    ensures Answer(sz, 0, grant) == Some(sz) && Mapped(sz, 0, grant) == sz
  {}

  // ---------- blocks within memory ----------

  /** Every block ends at or below sz. */
  ghost predicate Below(fl: seq<nat>, size: Sizes, live: seq<Chunk>, sz: nat) {
    forall k {:trigger See(k)} :: k == WITHIN ==> BelowNow(fl, size, live, sz)
  }

  ghost predicate BelowNow(fl: seq<nat>, size: Sizes, live: seq<Chunk>, sz: nat) {
    && (forall x: nat {:trigger See(x)} :: See(x) && InFree(fl, size, x) ==> x < sz)
    && forall k :: 0 <= k < |live| ==> live[k].End() <= sz
  }

  lemma EndsBelow(fl: seq<nat>, size: Sizes, live: seq<Chunk>, sz: nat, i: nat)
    requires Coalesced(fl, size) && Below(fl, size, live, sz) && 0 < i < |fl|
    ensures End(size, fl[i]) <= sz
  {
    assert See(WITHIN);
    var x := End(size, fl[i]) - 1;
    assert See(x) && InFree(fl, size, x) by {
      assert fl[i] <= x < End(size, fl[i]);
    }
  }

  /** Core that starts where memory ends is clear of every block. */
  lemma BelowNew(base: nat, fl: seq<nat>, size: Sizes, live: seq<Chunk>, sz: nat, n: nat)
    requires Coalesced(fl, size) && fl[0] == base && base + HDR <= sz && Below(fl, size, live, sz)
    requires LiveOk(base, fl, size, live)
    ensures NewCore(base, fl, size, live, sz, n)
  {
    assert See(WITHIN);
    forall i | 0 <= i < |fl|
      ensures End(size, fl[i]) <= sz && fl[i] < sz
    {
      if i > 0 {
        EndsBelow(fl, size, live, sz, i);
      }
    }
  }

  lemma BelowAfter(fl: seq<nat>, size: Sizes, live: seq<Chunk>, sz: nat, a: nat, e: nat, fl': seq<nat>, size': Sizes,
                   b: nat, n: nat, sz': nat)
    requires Below(fl, size, live, sz) && SameBytes(fl, size, a, e, fl', size', b, b + HDR * n) && n > 0
    requires sz <= sz' && e <= sz'
    ensures Below(fl', size', live + [Chunk(b, n)], sz')
  {
    assert See(WITHIN);
    forall x: nat | See(x) && (InFree(fl', size', x) || b <= x < b + HDR * n)
      ensures x < sz'
    {}
    assert See(b + HDR * n - 1);
    assert BelowNow(fl', size', live + [Chunk(b, n)], sz');
  }

  /** What the memory after malloc, for a heap that fits sz bytes, is good for. */
  lemma MallocExact(fl: seq<nat>, size: Sizes, live: seq<Chunk>, sz: nat, nbytes: nat, asked: bool, grant: bool,
                    fl': seq<nat>, size': Sizes, b: nat)
    requires Coalesced(fl, size) && Below(fl, size, live, sz) && sz < KERNBASE && nbytes < U32
    requires asked <==> !Fit(fl, size, UnitsFor(nbytes))
    requires asked ==> Answer(sz, SbrkArg(UnitsFor(nbytes)), grant).Some?
    requires SameBytes(fl, size, if asked then sz else 0, if asked then sz + HDR * Core(UnitsFor(nbytes)) else 0,
                       fl', size', b, b + HDR * UnitsFor(nbytes))
    ensures var mapped := if asked then Mapped(sz, SbrkArg(UnitsFor(nbytes)), grant) else sz;
            && mapped < KERNBASE && (nbytes <= LARGEST ==> sz <= mapped)
            && (HDR * (UnitsFor(nbytes) - 1) >= nbytes && Below(fl', size', live + [Chunk(b, UnitsFor(nbytes))], mapped)
                <==> nbytes <= LARGEST)
  {
    var n := UnitsFor(nbytes);
    LargestExact(nbytes);
    var mapped := if asked then Mapped(sz, SbrkArg(n), grant) else sz;
    if nbytes <= LARGEST {
      BelowAfter(fl, size, live, sz, if asked then sz else 0, if asked then sz + HDR * Core(n) else 0,
                 fl', size', b, n, mapped);
    } else if nbytes <= U32 - HDR {
      TooMuch(fl, size, live, sz, n);
      NotBelow(fl', size', live, Chunk(b, n), mapped);
    }
  }

  /** free keeps every block within memory. */
  lemma BelowFree(fl: seq<nat>, size: Sizes, live: seq<Chunk>, k: nat, fl': seq<nat>, size': Sizes, sz: nat)
    requires Below(fl, size, live, sz) && k < |live|
    requires SameBytes(fl, size, live[k].addr, live[k].End(), fl', size', 0, 0)
    ensures Below(fl', size', Drop(live, k), sz)
  {
    assert See(WITHIN);
    assert BelowNow(fl', size', Drop(live, k), sz);
  }

  lemma NotBelow(fl: seq<nat>, size: Sizes, live: seq<Chunk>, c: Chunk, sz: nat)
    requires c.End() > sz
    ensures !Below(fl, size, live + [c], sz)
  {
    assert See(WITHIN);
    assert (live + [c])[|live|] == c;
  }

  lemma BelowBase(base: nat, sz: nat)
    ensures Below([base], map[base := 0], [], sz)
  {
    assert BelowNow([base], map[base := 0], [], sz);
  }

  /** No free block is as large as all of memory. */
  lemma TooMuch(fl: seq<nat>, size: Sizes, live: seq<Chunk>, sz: nat, n: nat)
    requires Coalesced(fl, size) && Below(fl, size, live, sz) && sz < KERNBASE && n >= KERNBASE / HDR
    ensures !Fit(fl, size, n)
  {
    forall i | 0 <= i < |fl|
      ensures size[fl[i]] < n
    {
      if i > 0 {
        EndsBelow(fl, size, live, sz, i);
      }
    }
  }

  /** What morecore asks sbrk for. */
  function Core(nu: nat): nat {
    if nu < MINCORE then MINCORE else nu
  }

  /** sbrk's promise: n units at a, above base and clear of everything obtained before. */
  predicate NewCore(base: nat, fl: seq<nat>, size: Sizes, live: seq<Chunk>, a: nat, n: nat) {
    base + HDR <= a && a !in fl && OffList(fl, size, a, a + HDR * n) && OffLive(live, a, a + HDR * n) &&
    forall k :: 0 <= k < |live| ==> live[k].addr != a
  }

  lemma HandOut(base: nat, freep: nat, fl: seq<nat>, ptr: Links, size: Sizes, live: seq<Chunk>, got: nat, a: nat,
                n: nat)
    requires Heaped(base, freep, fl, ptr, size, live, got) && freep != 0 && AllIn(fl, size) && n > 0
    requires NewCore(base, fl, size, live, a, n)
    ensures AllIn(fl, size[a := n]) && Heaped(base, freep, fl, ptr, size[a := n], live + [Chunk(a, n)], got + n)
    ensures SameBytes(fl, size, 0, 0, fl, size[a := n], 0, 0)
  {
    assert See(INSIDE);
    HandOutNow(base, fl, size, live, a, n);
    SnocLive(live, Chunk(a, n));
    assert SoundNow(base, freep, fl, ptr, size[a := n], live + [Chunk(a, n)], got + n);
  }

  lemma HandOutNow(base: nat, fl: seq<nat>, size: Sizes, live: seq<Chunk>, a: nat, n: nat)
    requires Coalesced(fl, size) && LiveOk(base, fl, size, live) && NewCore(base, fl, size, live, a, n) && n > 0
    ensures Coalesced(fl, size[a := n]) && LiveOk(base, fl, size[a := n], live + [Chunk(a, n)])
    ensures Units(fl, size[a := n]) == Units(fl, size) && SameBytes(fl, size, 0, 0, fl, size[a := n], 0, 0)
  {
    FreshSize(fl, size, a, n);
    forall x: nat | See(x)
      ensures InFree(fl, size[a := n], x) <==> InFree(fl, size, x)
    {
      FreshBytes(fl, size, a, n, x);
    }
    forall k | 0 <= k < |live|
      ensures OffList(fl, size[a := n], live[k].addr, live[k].End())
    {
      assert OffList(fl, size, live[k].addr, live[k].End());
    }
  }

  // ---------- malloc ----------

  /** The list in the order malloc examines it: from the entry after fl[f] round to fl[f]. */
  function Lap(fl: seq<nat>, f: nat): (r: seq<nat>)
    requires f < |fl|
    ensures |r| == |fl|
  {
    fl[f + 1..] + fl[..f + 1]
  }

  function LapIndex(fl: seq<nat>, f: nat, t: nat): (i: nat)
    requires f < |fl| && t < |fl|
    ensures i < |fl| && Lap(fl, f)[t] == fl[i]
  {
    if t < |fl| - f - 1 then f + 1 + t else t - (|fl| - f - 1)
  }

  lemma LapNext(fl: seq<nat>, ptr: Links, f: nat, t: nat)
    requires Circular(fl, ptr) && f < |fl| && t < |fl|
    ensures var prev := if t == 0 then fl[f] else Lap(fl, f)[t - 1];
            prev in ptr && ptr[prev] == Lap(fl, f)[t]
    ensures LapIndex(fl, f, t) > 0 ==> fl[LapIndex(fl, f, t) - 1] == if t == 0 then fl[f] else Lap(fl, f)[t - 1]
  {
    assert See(f);
    if t > 0 {
      assert See(LapIndex(fl, f, t - 1));
    }
  }

  lemma LapIn(fl: seq<nat>, size: Sizes, f: nat, t: nat)
    requires AllIn(fl, size) && f < |fl| && t < |fl|
    ensures Lap(fl, f)[t] in size
  {
    assert See(LapIndex(fl, f, t)) && Lap(fl, f)[t] == fl[LapIndex(fl, f, t)];
  }

  lemma LapEnd(fl: seq<nat>, f: nat, t: nat)
    requires Ascending(fl) && f < |fl| && t < |fl|
    ensures Lap(fl, f)[t] == fl[f] <==> t == |fl| - 1
  {
    assert LapIndex(fl, f, |fl| - 1) == f;
  }

  /** A whole lap without a fit means there is none. */
  lemma LapCovers(fl: seq<nat>, size: Sizes, f: nat, n: nat)
    requires AllIn(fl, size) && f < |fl|
    requires forall t :: 0 <= t < |fl| ==> Lap(fl, f)[t] in size && size[Lap(fl, f)[t]] < n
    ensures !Fit(fl, size, n)
  {
    forall i | 0 <= i < |fl|
      ensures size[fl[i]] < n
    {
      var t := if i > f then i - f - 1 else i + |fl| - f - 1;
      assert Lap(fl, f)[t] == fl[i];
    }
  }

  /** Taking the whole of block i. */
  lemma TakeWhole(base: nat, fl: seq<nat>, size: Sizes, live: seq<Chunk>, i: nat)
    requires Coalesced(fl, size) && fl[0] == base && LiveOk(base, fl, size, live) && 0 < i < |fl|
    ensures LiveOk(base, Dropped(fl, i), size, live + [Chunk(fl[i], size[fl[i]])])
  {
    var (c, fl') := (Chunk(fl[i], size[fl[i]]), Dropped(fl, i));
    CoalescedAscends(fl, size);
    assert forall x :: 0 <= x < |fl'| ==> fl'[x] == fl[if x < i then x else x + 1];
    assert OffList(fl', size, c.addr, c.End());
    forall k | 0 <= k < |live|
      ensures OffList(fl', size, live[k].addr, live[k].End()) && Apart(live[k].addr, live[k].End(), c.addr, c.End())
    {
      assert OffList(fl, size, live[k].addr, live[k].End());
    }
  }

  /** Taking n units from the end of block i. */
  lemma TakeTail(base: nat, fl: seq<nat>, size: Sizes, live: seq<Chunk>, i: nat, n: nat, a: nat, size': Sizes)
    requires Coalesced(fl, size) && fl[0] == base && LiveOk(base, fl, size, live) && 0 < i < |fl|
    requires 0 < n < size[fl[i]] && a == fl[i] + HDR * (size[fl[i]] - n) &&
             size' == size[fl[i] := size[fl[i]] - n][a := n]
    ensures Coalesced(fl, size') && LiveOk(base, fl, size', live + [Chunk(a, n)]) &&
            Units(fl, size') == Units(fl, size) - n
  {
    CoalescedAscends(fl, size);
    TailUnits(fl, size, i, n, a, size');
    TailLive(base, fl, size, live, i, n, a, size');
  }

  /** a and size' are what is left when the last n units of block i are cut off. */
  predicate CutsTail(fl: seq<nat>, size: Sizes, i: nat, n: nat, a: nat, size': Sizes) {
    && Coalesced(fl, size) && Ascending(fl) && 0 < i < |fl| && 0 < n < size[fl[i]]
    && a == fl[i] + HDR * (size[fl[i]] - n) && size' == size[fl[i] := size[fl[i]] - n][a := n]
  }

  lemma TailPlace(fl: seq<nat>, size: Sizes, i: nat, n: nat, a: nat, size': Sizes)
    requires CutsTail(fl, size, i, n, a, size')
    ensures a !in fl && fl[i] < a < a + HDR * n == End(size, fl[i])
    ensures forall x :: 0 <= x < |fl| ==> fl[x] in size' && End(size', fl[x]) <= End(size, fl[x])
    ensures End(size', fl[i]) == a
  {
    forall x | 0 <= x < |fl|
      ensures fl[x] != a
    {
      assert x > i ==> End(size, fl[i]) < fl[x];
    }
  }

  lemma TailUnits(fl: seq<nat>, size: Sizes, i: nat, n: nat, a: nat, size': Sizes)
    requires CutsTail(fl, size, i, n, a, size')
    ensures Coalesced(fl, size') && Units(fl, size') == Units(fl, size) - n
  {
    var left := size[fl[i]] - n;
    var size1 := size[fl[i] := left];
    TailPlace(fl, size, i, n, a, size');
    TailResized(fl, size, i, n, left, size1);
    FreshSize(fl, size1, a, n);
  }

  lemma TailResized(fl: seq<nat>, size: Sizes, i: nat, n: nat, left: nat, size1: Sizes)
    requires Coalesced(fl, size) && 0 < i < |fl| && left > 0 && size[fl[i]] == left + n && size1 == size[fl[i] := left]
    ensures Coalesced(fl, size1) && Units(fl, size1) == Units(fl, size) - n
  {
    CoalescedAscends(fl, size);
    Resize(fl, size, i, left);
    ResizeUnits(fl, size, i, left);
  }

  lemma TailApart(base: nat, fl: seq<nat>, size: Sizes, live: seq<Chunk>, i: nat, n: nat, a: nat, size': Sizes)
    requires CutsTail(fl, size, i, n, a, size') && LiveOk(base, fl, size, live)
    ensures forall k :: 0 <= k < |live| ==> live[k].addr != a && live[k].addr != fl[i]
    ensures OffLive(live, a, a + HDR * n)
  {
    TailPlace(fl, size, i, n, a, size');
    forall k | 0 <= k < |live|
      ensures live[k].addr != a && live[k].addr != fl[i] && Apart(a, a + HDR * n, live[k].addr, live[k].End())
    {
      assert OffList(fl, size, live[k].addr, live[k].End());
      assert Apart(live[k].addr, live[k].End(), fl[i], End(size, fl[i]));
    }
  }

  lemma TailLive(base: nat, fl: seq<nat>, size: Sizes, live: seq<Chunk>, i: nat, n: nat, a: nat, size': Sizes)
    requires CutsTail(fl, size, i, n, a, size') && fl[0] == base && LiveOk(base, fl, size, live)
    ensures LiveOk(base, fl, size', live + [Chunk(a, n)])
  {
    TailApart(base, fl, size, live, i, n, a, size');
    TailPlace(fl, size, i, n, a, size');
    TailOff(fl, size, i, n, a, size');
    forall k | 0 <= k < |live|
      ensures OffList(fl, size', live[k].addr, live[k].End())
    {
      assert OffList(fl, size, live[k].addr, live[k].End());
      TailKeepsOff(fl, size, size', live[k].addr, live[k].End());
    }
    LiveMore(base, fl, size', live, Chunk(a, n));
  }

  lemma LiveMore(base: nat, fl: seq<nat>, size: Sizes, live: seq<Chunk>, c: Chunk)
    requires LiveOk(base, fl, size, live) && c.size > 0 && base < c.addr && c.addr in size && size[c.addr] == c.size
    requires OffLive(live, c.addr, c.End()) && OffList(fl, size, c.addr, c.End())
    ensures LiveOk(base, fl, size, live + [c])
  {}

  /** Blocks that end sooner meet no more than they did. */
  lemma TailKeepsOff(fl: seq<nat>, size: Sizes, size': Sizes, lo: nat, hi: nat)
    requires OffList(fl, size, lo, hi)
    requires forall x :: 0 <= x < |fl| ==> fl[x] in size' && End(size', fl[x]) <= End(size, fl[x])
    ensures OffList(fl, size', lo, hi)
  {
    forall x | 0 <= x < |fl|
      ensures Apart(lo, hi, fl[x], End(size', fl[x]))
    {
      assert Apart(lo, hi, fl[x], End(size, fl[x]));
    }
  }

  lemma TailOff(fl: seq<nat>, size: Sizes, i: nat, n: nat, a: nat, size': Sizes)
    requires CutsTail(fl, size, i, n, a, size')
    ensures OffList(fl, size', a, a + HDR * n)
  {
    TailPlace(fl, size, i, n, a, size');
    forall x | 0 <= x < |fl|
      ensures Apart(a, a + HDR * n, fl[x], End(size', fl[x]))
    {
      if x > i {
        assert End(size, fl[i]) < fl[x];
      } else if x < i {
        assert End(size, fl[x]) < fl[i];
      }
    }
  }

  // ---------- the steps of free, as the methods see them ----------

  /** bp, off the list, belongs after p = fl[j]. */
  ghost predicate Placed(base: nat, fl: seq<nat>, ptr: Links, size: Sizes, rest: seq<Chunk>, j: nat, bp: nat, p: nat) {
    && bp in size && p in ptr && ptr[p] in ptr && ptr[p] in size
    && forall k {:trigger See(k)} :: k == INSIDE ==> PlacedNow(base, fl, ptr, size, rest, j, bp, p)
  }

  ghost predicate PlacedNow(base: nat, fl: seq<nat>, ptr: Links, size: Sizes, rest: seq<Chunk>, j: nat, bp: nat,
                            p: nat) {
    && ListOk(fl, ptr, size) && fl[0] == base < bp && RestOk(base, fl, size, rest, bp) && bp !in fl
    && Between(fl, j, bp) && p == fl[j] && End(size, p) <= bp && (j + 1 < |fl| ==> End(size, bp) <= fl[j + 1])
  }

  /** A block handed out is off the list. */
  lemma HandedOut(base: nat, freep: nat, fl: seq<nat>, ptr: Links, size: Sizes, live: seq<Chunk>, got: nat, k: nat)
    requires Heaped(base, freep, fl, ptr, size, live, got) && k < |live|
    ensures freep != 0 && base < live[k].addr && live[k].addr !in fl
  {
    assert See(INSIDE);
    NotListed(base, fl, size, live, k);
  }

  lemma MakePlaced(base: nat, freep: nat, fl: seq<nat>, ptr: Links, size: Sizes, live: seq<Chunk>, got: nat, k: nat,
                   j: nat, bp: nat, p: nat)
    requires Heaped(base, freep, fl, ptr, size, live, got) && k < |live| && bp == live[k].addr
    requires Between(fl, j, bp) && p == fl[j]
    ensures Placed(base, fl, ptr, size, Drop(live, k), j, bp, p)
  {
    assert See(INSIDE);
    NotListed(base, fl, size, live, k);
    InGap(base, fl, size, live, k, j);
    DropRest(base, fl, size, live, k);
    EntriesLinked(fl, ptr);
    assert See(j);
    assert PlacedNow(base, fl, ptr, size, Drop(live, k), j, bp, p);
  }

  lemma IsHeaped(base: nat, freep0: nat, fl0: seq<nat>, ptr0: Links, size0: Sizes, live0: seq<Chunk>, got: nat, k: nat,
                 fl: seq<nat>, ptr: Links, size: Sizes, live: seq<Chunk>, bp: nat, p: nat)
    requires Heaped(base, freep0, fl0, ptr0, size0, live0, got) && k < |live0| && bp == live0[k].addr && base > 0
    requires live == Drop(live0, k) && Joined(base, fl0, size0, fl, ptr, size, live, bp, p)
    ensures p != 0 && Heaped(base, p, fl, ptr, size, live, got) && Fit(fl, size, live0[k].size)
    ensures SameBytes(fl0, size0, bp, live0[k].End(), fl, size, 0, 0)
  {
    assert See(INSIDE);
    DropLive(live0, k);
    var i :| 0 <= i < |fl| && fl[i] == p;
    NotNull(base, fl, size, i);
    assert SoundNow(base, p, fl, ptr, size, live, got);
  }

  /** bp has taken in the block above or points at it; links is the list without bp. */
  ghost predicate Half(base: nat, fl0: seq<nat>, size0: Sizes, fl: seq<nat>, links: Links, ptr: Links, size: Sizes,
                       rest: seq<Chunk>, j: nat, bp: nat, p: nat) {
    && bp in ptr && bp in size && p in size && j < |fl|
    && forall k {:trigger See(k)} :: k == INSIDE ==> HalfNow(base, fl0, size0, fl, links, ptr, size, rest, j, bp, p)
  }

  ghost predicate HalfNow(base: nat, fl0: seq<nat>, size0: Sizes, fl: seq<nat>, links: Links, ptr: Links, size: Sizes,
                          rest: seq<Chunk>, j: nat, bp: nat, p: nat) {
    && ListOk(fl, links, size) && fl[0] == base < bp && RestOk(base, fl, size, rest, bp) && Joining(fl, size, j, bp)
    && fl[j] == p && p in links && bp in ptr && ptr[bp] == links[p] && Agree(fl, links, ptr, p)
    && AllIn(fl0, size0) && bp in size0 && size[bp] >= size0[bp]
    && Units(fl, size) + size[bp] == Units(fl0, size0) + size0[bp]
    && SameBytes(fl0, size0, bp, End(size0, bp), fl, size, bp, End(size, bp))
  }

  /** bp's units and bytes are on the list, coalesced. */
  ghost predicate Joined(base: nat, fl0: seq<nat>, size0: Sizes, fl: seq<nat>, ptr: Links, size: Sizes,
                         rest: seq<Chunk>, bp: nat, p: nat) {
    AllIn(fl, size) &&
    forall k {:trigger See(k)} :: k == INSIDE ==> JoinedNow(base, fl0, size0, fl, ptr, size, rest, bp, p)
  }

  ghost predicate JoinedNow(base: nat, fl0: seq<nat>, size0: Sizes, fl: seq<nat>, ptr: Links, size: Sizes,
                            rest: seq<Chunk>, bp: nat, p: nat) {
    && ListOk(fl, ptr, size) && fl[0] == base && LiveOk(base, fl, size, rest) && p in fl
    && AllIn(fl0, size0) && bp in size0 && Units(fl, size) == Units(fl0, size0) + size0[bp] && Fit(fl, size, size0[bp])
    && SameBytes(fl0, size0, bp, End(size0, bp), fl, size, 0, 0)
  }

  lemma AboveMerges(base: nat, fl: seq<nat>, ptr: Links, size: Sizes, rest: seq<Chunk>, j: nat, bp: nat, p: nat, q: nat)
    requires Placed(base, fl, ptr, size, rest, j, bp, p) && q == ptr[p] && bp + HDR * size[bp] == q
    ensures j + 1 < |fl|
    ensures Half(base, fl, size, Dropped(fl, j + 1), ptr[p := ptr[q]], ptr[bp := ptr[q]],
            size[bp := size[bp] + size[q]],
                 rest, j, bp, p)
  {
    assert See(INSIDE);
    WrapIsBase(fl, ptr, size, j, bp);
    var fl1, size1 := Dropped(fl, j + 1), size[bp := size[bp] + size[q]];
    AboveMerge(base, fl, ptr, size, rest, j, bp, q, fl1, size1);
    assert HalfNow(base, fl, size, fl1, ptr[p := ptr[q]], ptr[bp := ptr[q]], size1, rest, j, bp, p);
  }

  lemma AboveKeeps(base: nat, fl: seq<nat>, ptr: Links, size: Sizes, rest: seq<Chunk>, j: nat, bp: nat, p: nat, q: nat)
    requires Placed(base, fl, ptr, size, rest, j, bp, p) && q == ptr[p] && bp + HDR * size[bp] != q
    ensures Half(base, fl, size, fl, ptr, ptr[bp := q], size, rest, j, bp, p)
  {
    assert See(INSIDE);
    WrapIsBase(fl, ptr, size, j, bp);
    AboveKeep(fl, ptr, size, j, bp);
    assert HalfNow(base, fl, size, fl, ptr, ptr[bp := q], size, rest, j, bp, p);
  }

  lemma BelowMerges(base: nat, fl0: seq<nat>, size0: Sizes, fl: seq<nat>, links: Links, ptr: Links, size: Sizes,
                    rest: seq<Chunk>, j: nat, bp: nat, p: nat)
    requires Half(base, fl0, size0, fl, links, ptr, size, rest, j, bp, p) && p + HDR * size[p] == bp
    ensures Joined(base, fl0, size0, fl, ptr[p := ptr[bp]], size[p := size[p] + size[bp]], rest, bp, p)
  {
    assert See(INSIDE);
    var size1 := size[p := size[p] + size[bp]];
    BelowMerge(base, fl, links, ptr, size, rest, j, bp, size1);
    JoinBytes(fl0, size0, fl, size, bp, fl, size1);
    assert JoinedNow(base, fl0, size0, fl, ptr[p := ptr[bp]], size1, rest, bp, p);
  }

  lemma BelowInserts(base: nat, fl0: seq<nat>, size0: Sizes, fl: seq<nat>, links: Links, ptr: Links, size: Sizes,
                     rest: seq<Chunk>, j: nat, bp: nat, p: nat)
    requires Half(base, fl0, size0, fl, links, ptr, size, rest, j, bp, p) && p + HDR * size[p] != bp
    ensures Joined(base, fl0, size0, Inserted(fl, j + 1, bp), ptr[p := bp], size, rest, bp, p)
  {
    assert See(INSIDE);
    var fl1 := Inserted(fl, j + 1, bp);
    BelowInsert(base, fl, links, ptr, size, rest, j, bp, fl1);
    JoinBytes(fl0, size0, fl, size, bp, fl1, size);
    assert JoinedNow(base, fl0, size0, fl1, ptr[p := bp], size, rest, bp, p);
  }

  lemma JoinBytes(fl0: seq<nat>, size0: Sizes, fl: seq<nat>, size: Sizes, bp: nat, fl1: seq<nat>, size1: Sizes)
    requires bp in size0 && bp in size && SameBytes(fl0, size0, bp, End(size0, bp), fl, size, bp, End(size, bp))
    requires SameBytes(fl, size, bp, End(size, bp), fl1, size1, 0, 0)
    ensures SameBytes(fl0, size0, bp, End(size0, bp), fl1, size1, 0, 0)
  {}

  /** The stored links are the list's, except possibly at p. */
  predicate Agree(fl: seq<nat>, links: Links, ptr: Links, p: nat) {
    forall x :: x in fl ==> x in links && x in ptr && (x != p ==> links[x] == ptr[x])
  }

  lemma BelowMerge(base: nat, fl: seq<nat>, links: Links, ptr: Links, size: Sizes, rest: seq<Chunk>, j: nat, bp: nat,
                   size': Sizes)
    requires ListOk(fl, links, size) && Joining(fl, size, j, bp) && Agree(fl, links, ptr, fl[j]) && fl[0] < bp
    requires bp in ptr && fl[j] in links && ptr[bp] == links[fl[j]] && End(size, fl[j]) == bp
    requires RestOk(base, fl, size, rest, bp) && size' == size[fl[j] := size[fl[j]] + size[bp]]
    ensures ListOk(fl, ptr[fl[j] := ptr[bp]], size') && LiveOk(base, fl, size', rest)
    ensures Units(fl, size') == Units(fl, size) + size[bp] && Fit(fl, size', size[bp]) && fl[j] in fl
    ensures SameBytes(fl, size, bp, End(size, bp), fl, size', 0, 0)
  {
    forall x: nat | See(x)
      ensures InFree(fl, size', x) <==> InFree(fl, size, x) || bp <= x < End(size, bp)
    {
      ResizeBytes(fl, size, j, size[fl[j]] + size[bp], x);
    }
    JoinLower(fl, links, size, j, bp);
    RestLower(base, fl, size, rest, j, bp);
    assert forall i :: 0 <= i < |fl| ==> fl[i] in fl;
    CircularFrame(fl, links, ptr[fl[j] := ptr[bp]]);
    assert size'[fl[j]] >= size[bp];
  }

  lemma BelowInsert(base: nat, fl: seq<nat>, links: Links, ptr: Links, size: Sizes, rest: seq<Chunk>, j: nat, bp: nat,
                    fl': seq<nat>)
    requires ListOk(fl, links, size) && Joining(fl, size, j, bp) && Agree(fl, links, ptr, fl[j])
    requires bp in ptr && fl[j] in links && ptr[bp] == links[fl[j]] && End(size, fl[j]) != bp
    requires RestOk(base, fl, size, rest, bp) && fl' == Inserted(fl, j + 1, bp)
    ensures ListOk(fl', ptr[fl[j] := bp], size) && LiveOk(base, fl', size, rest)
    ensures Units(fl', size) == Units(fl, size) + size[bp] && Fit(fl', size, size[bp]) && fl'[0] == fl[0] &&
            fl[j] in fl'
    ensures SameBytes(fl, size, bp, End(size, bp), fl', size, 0, 0)
  {
    forall x: nat | See(x)
      ensures InFree(fl', size, x) <==> InFree(fl, size, x) || bp <= x < End(size, bp)
    {
      InsertBytes(fl, size, j + 1, bp, x);
    }
    BelowLink(fl, links, ptr, size, j, bp);
    InsertUnits(fl, size, j + 1, bp);
    RestInsert(base, fl, size, rest, j + 1, bp);
    assert fl'[j] == fl[j] && fl'[j + 1] == bp;
  }

  lemma BelowLink(fl: seq<nat>, links: Links, ptr: Links, size: Sizes, j: nat, bp: nat)
    requires ListOk(fl, links, size) && Joining(fl, size, j, bp) && Agree(fl, links, ptr, fl[j])
    requires bp in ptr && fl[j] in links && ptr[bp] == links[fl[j]] && End(size, fl[j]) != bp
    ensures ListOk(Inserted(fl, j + 1, bp), ptr[fl[j] := bp], size)
  {
    CoalescedAscends(fl, size);
    InsertCoalesced(fl, size, j + 1, bp);
    LinkCircular(fl, links, j + 1, bp);
    InsertedAgree(fl, links, ptr, j, bp);
    CircularFrame(Inserted(fl, j + 1, bp), links[bp := links[fl[j]]][fl[j] := bp], ptr[fl[j] := bp]);
  }

  lemma InsertedAgree(fl: seq<nat>, links: Links, ptr: Links, j: nat, bp: nat)
    requires j < |fl| && Agree(fl, links, ptr, fl[j]) && bp !in fl
    requires bp in ptr && fl[j] in links && ptr[bp] == links[fl[j]]
    ensures var (fl', ptr1, ptr2) :=
            (Inserted(fl, j + 1, bp), links[bp := links[fl[j]]][fl[j] := bp], ptr[fl[j] := bp]);
            AllIn(fl', ptr1) && AllIn(fl', ptr2) && forall i :: 0 <= i < |fl'| ==> ptr2[fl'[i]] == ptr1[fl'[i]]
  {
    var fl' := Inserted(fl, j + 1, bp);
    assert forall i :: 0 <= i < |fl'| ==> fl'[i] == bp || fl'[i] in fl;
  }

  lemma AboveMerge(base: nat, fl: seq<nat>, ptr: Links, size: Sizes, rest: seq<Chunk>, j: nat, bp: nat, q: nat,
                   fl1: seq<nat>, size1: Sizes)
    requires ListOk(fl, ptr, size) && RestOk(base, fl, size, rest, bp) && bp !in fl && Between(fl, j, bp)
    requires End(size, fl[j]) <= bp && j + 1 < |fl| && End(size, bp) == fl[j + 1] == q
    requires fl1 == Dropped(fl, j + 1) && size1 == size[bp := size[bp] + size[q]]
    ensures q in ptr && Agree(fl1, ptr[fl[j] := ptr[q]], ptr[bp := ptr[q]], fl[j])
    ensures ListOk(fl1, ptr[fl[j] := ptr[q]], size1) && Joining(fl1, size1, j, bp) && RestOk(base, fl1, size1, rest, bp)
    ensures fl1[0] == fl[0] && fl1[j] == fl[j]
    ensures Units(fl1, size1) + size1[bp] == Units(fl, size) + size[bp]
    ensures SameBytes(fl, size, bp, End(size, bp), fl1, size1, bp, End(size1, bp))
  {
    UpperBytes(fl, size, j, bp, q, fl1, size1);
    JoinUpper(fl, ptr, size, j, bp, q, fl1, size1);
    JoinUpperUnits(fl, size, j, bp);
    AboveAgree(fl, ptr, j, bp, q);
    RestUpper(base, fl, size, rest, j, bp);
  }

  lemma UpperBytes(fl: seq<nat>, size: Sizes, j: nat, bp: nat, q: nat, fl1: seq<nat>, size1: Sizes)
    requires Coalesced(fl, size) && bp in size && bp !in fl && j + 1 < |fl| && End(size, bp) == fl[j + 1] == q
    requires fl1 == Dropped(fl, j + 1) && size1 == size[bp := size[bp] + size[q]]
    ensures SameBytes(fl, size, bp, End(size, bp), fl1, size1, bp, End(size1, bp))
  {
    DropCoalesced(fl, size, j + 1);
    DropNotIn(fl, j + 1, bp);
    assert End(size1, bp) == End(size, bp) + HDR * size[q] == End(size, q);
    forall x: nat | See(x)
      ensures InFree(fl1, size1, x) || bp <= x < End(size1, bp) <==> InFree(fl, size, x) || bp <= x < End(size, bp)
    {
      UpperByte(fl, size, j, bp, q, x);
    }
  }

  lemma DropNotIn(fl: seq<nat>, k: nat, b: nat)
    requires k < |fl| && b !in fl
    ensures b !in Dropped(fl, k)
  {}

  lemma UpperByte(fl: seq<nat>, size: Sizes, j: nat, bp: nat, q: nat, x: nat)
    requires Coalesced(fl, size) && bp in size && bp !in fl && j + 1 < |fl| && fl[j + 1] == q
    requires Coalesced(Dropped(fl, j + 1), size) && bp !in Dropped(fl, j + 1)
    ensures InFree(Dropped(fl, j + 1), size[bp := size[bp] + size[q]], x) || q <= x < End(size, q) <==>
            InFree(fl, size, x)
  {
    DropBytes(fl, size, j + 1, x);
    FreshBytes(Dropped(fl, j + 1), size, bp, size[bp] + size[q], x);
  }

  lemma AboveKeep(fl: seq<nat>, ptr: Links, size: Sizes, j: nat, bp: nat)
    requires ListOk(fl, ptr, size) && bp !in fl && Between(fl, j, bp) && bp in size && size[bp] > 0 && fl[j] in ptr
    requires End(size, fl[j]) <= bp && (j + 1 < |fl| ==> End(size, bp) < fl[j + 1])
    ensures Joining(fl, size, j, bp) && Agree(fl, ptr, ptr[bp := ptr[fl[j]]], fl[j])
  {
    EntriesLinked(fl, ptr);
  }

  lemma AboveAgree(fl: seq<nat>, ptr: Links, j: nat, bp: nat, q: nat)
    requires Circular(fl, ptr) && j + 1 < |fl| && bp !in fl && q in ptr
    ensures Agree(Dropped(fl, j + 1), ptr[fl[j] := ptr[q]], ptr[bp := ptr[q]], fl[j])
  {
    EntriesLinked(fl, ptr);
    assert forall x :: x in Dropped(fl, j + 1) ==> x in fl;
  }

  /** Only base is at the wrap, and nothing ends there. */
  lemma WrapIsBase(fl: seq<nat>, ptr: Links, size: Sizes, j: nat, bp: nat)
    requires ListOk(fl, ptr, size) && Between(fl, j, bp) && bp in size && fl[0] < bp
    ensures fl[j] in ptr && (End(size, bp) == ptr[fl[j]] <==> j + 1 < |fl| && End(size, bp) == fl[j + 1])
    ensures j + 1 < |fl| ==> ptr[fl[j]] == fl[j + 1]
  {
    assert See(j);
  }

  lemma EntriesLinked(fl: seq<nat>, ptr: Links)
    requires Circular(fl, ptr)
    ensures forall x :: x in fl ==> x in ptr
  {
    forall i: nat | i < |fl|
      ensures fl[i] in ptr
    {
      assert See(i);
    }
  }

  /** The last list entry below bp. */
  ghost function Place(fl: seq<nat>, bp: nat): (j: nat)
    requires fl != [] && fl[0] < bp
    ensures j < |fl| && fl[j] < bp
  {
    if fl[|fl| - 1] < bp then |fl| - 1 else Place(fl[..|fl| - 1], bp)
  }

  lemma {:induction false} PlaceBetween(fl: seq<nat>, bp: nat)
    requires fl != [] && fl[0] < bp && Ascending(fl) && bp !in fl
    ensures Between(fl, Place(fl, bp), bp)
  {
    var n := |fl| - 1;
    if fl[n] >= bp {
      assert fl[n] in fl;
      assert fl[n] > bp;
      PlaceBetween(fl[..n], bp);
      assert Place(fl, bp) + 1 < n ==> fl[..n][Place(fl, bp) + 1] == fl[Place(fl, bp) + 1];
    }
  }

  /** Either test of free's loop succeeds at fl[i] exactly when bp belongs there. */
  lemma StopsAt(fl: seq<nat>, ptr: Links, i: nat, j: nat, bp: nat)
    requires Circular(fl, ptr) && Ascending(fl) && i < |fl| && Between(fl, j, bp) && fl[0] < bp && See(i)
    ensures fl[i] in ptr
    ensures var (p, q) := (fl[i], ptr[fl[i]]);
            (bp > p && bp < q) || (p >= q && (bp > p || bp < q)) <==> i == j
  {}
}
