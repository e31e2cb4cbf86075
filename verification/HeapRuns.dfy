/** Runs of malloc and free: whatever a program asks for and gives back, the blocks it holds are its own. */
module HeapRuns {
  import opened Words
  import opened Keys
  import opened FreeList
  import opened Umalloc

  /** A pointer that malloc returned and the bytes that were asked for. */
  datatype Piece = Piece(addr: nat, bytes: nat) {
    function End(): nat {
      addr + bytes
    }
  }

  datatype Call =
    | Alloc(bytes: nat, grant: bool) // grant: the kernel has frames for it
    | Release(k: nat)                // free of the k'th piece held, if there is one

  function After(held: seq<Piece>, c: Call, out: Got): seq<Piece> {
    match c
    case Alloc(bytes, _) => if out.Block? then held + [Piece(out.addr, bytes)] else held
    case Release(k) => if k < |held| then held[..k] + held[k + 1..] else held
  }

  /** The pieces malloc has answered and the program has not freed. */
  function AfterAll(calls: seq<Call>, outs: seq<Got>): seq<Piece>
    requires |outs| == |calls|
  {
    if calls == [] then [] else
      var n := |calls| - 1;
      After(AfterAll(calls[..n], outs[..n]), calls[n], outs[n])
  }

  predicate Possible(calls: seq<Call>) {
    forall c <- calls :: c.Alloc? ==> c.bytes <= LARGEST
  }

  /** The pieces lie in memory above base and do not overlap. */
  predicate Separate(held: seq<Piece>, base: nat, top: nat) {
    && (forall i :: 0 <= i < |held| ==> base + HDR < held[i].addr && held[i].End() <= top)
    && forall i, j :: 0 <= i < j < |held| ==> held[i].End() <= held[j].addr || held[j].End() <= held[i].addr
  }

  /** Piece i is the payload of block i. */
  predicate Payloads(held: seq<Piece>, live: seq<Chunk>) {
    |held| == |live| && forall i :: 0 <= i < |held| ==> Payload(held[i], live[i])
  }

  predicate Payload(p: Piece, c: Chunk) {
    p.addr == c.addr + HDR && p.End() <= c.End()
  }

  /** No byte of a piece is on the free list. */
  ghost predicate NotFree(held: seq<Piece>, fl: seq<nat>, size: Sizes) {
    forall i, x: nat :: 0 <= i < |held| && held[i].addr <= x < held[i].End() ==> !InFree(fl, size, x)
  }

  lemma Owned(heap: Heap, proc: Process, held: seq<Piece>)
    requires heap.Valid() && heap.Backed(proc) && Payloads(held, heap.live)
    ensures Separate(held, heap.base, proc.size) && NotFree(held, heap.fl, heap.size)
  {
    assert See(INSIDE) && See(WITHIN);
    var live := heap.live;
    forall i | 0 <= i < |held|
      ensures heap.base + HDR < held[i].addr && held[i].End() <= proc.size
      ensures forall x: nat :: held[i].addr <= x < held[i].End() ==> !InFree(heap.fl, heap.size, x)
    {
      assert Payload(held[i], live[i]);
      assert OffList(heap.fl, heap.size, live[i].addr, live[i].End());
    }
    forall i, j | 0 <= i < j < |held|
      ensures held[i].End() <= held[j].addr || held[j].End() <= held[i].addr
    {
      assert Payload(held[i], live[i]) && Payload(held[j], live[j]);
      assert Umalloc.Apart(live[i].addr, live[i].End(), live[j].addr, live[j].End());
    }
  }

  lemma PayloadsDrop(held: seq<Piece>, live: seq<Chunk>, k: nat)
    requires Payloads(held, live) && k < |held|
    ensures Payloads(held[..k] + held[k + 1..], Drop(live, k))
  {
    var (h, l) := (held[..k] + held[k + 1..], Drop(live, k));
    forall i | 0 <= i < |h|
      ensures Payload(h[i], l[i])
    {
      var o := if i < k then i else i + 1;
      assert h[i] == held[o] && l[i] == live[o] && Payload(held[o], live[o]);
    }
  }

  method Step(heap: Heap, proc: Process, c: Call, held: seq<Piece>) returns (out: Got, held': seq<Piece>)
    requires heap.Valid() && heap.Backed(proc) && Payloads(held, heap.live) && (c.Alloc? ==> c.bytes <= LARGEST)
    modifies heap, proc
    ensures heap.Valid() && heap.Backed(proc) && Payloads(held', heap.live) && !out.Fault?
    ensures held' == After(held, c, out)
  {
    match c
    case Alloc(bytes, grant) =>
      ghost var asked;
      LargestExact(bytes);
      out, asked := heap.Malloc(bytes, proc, grant);
      held' := held;
      if out.Block? {
        held' := held + [Piece(out.addr, bytes)];
      }
    case Release(k) =>
      out, held' := Null, held;
      if k < |held| {
        assert Payload(held[k], heap.live[k]);
        HandedOut(heap.base, heap.freep, heap.fl, heap.ptr, heap.size, heap.live, heap.got, k);
        PayloadsDrop(held, heap.live, k);
        heap.Free(held[k].addr, k);
        held' := held[..k] + held[k + 1..];
      }
  }

  /**
   Any sequence of calls, of at most LARGEST bytes each, on a heap with nothing handed out: the process
   lives, the heap stays sound and within its memory, and the pieces held at the end are exactly those
   answered and not freed; they lie in memory, apart from each other and from the free list.
   */
  method Play(heap: Heap, proc: Process, calls: seq<Call>) returns (outs: seq<Got>, held: seq<Piece>)
    requires heap.Valid() && heap.Backed(proc) && heap.live == [] && Possible(calls)
    modifies heap, proc
    ensures heap.Valid() && heap.Backed(proc) && |outs| == |calls| && forall out <- outs :: !out.Fault?
    ensures held == AfterAll(calls, outs) && Payloads(held, heap.live)
    ensures Separate(held, heap.base, proc.size) && NotFree(held, heap.fl, heap.size)
  {
    outs, held := [], [];
    for n := 0 to |calls|
      invariant heap.Valid() && heap.Backed(proc) && |outs| == n && forall out <- outs :: !out.Fault?
      invariant held == AfterAll(calls[..n], outs) && Payloads(held, heap.live)
    {
      assert calls[n] in calls && calls[..n + 1][..n] == calls[..n];
      var out;
      out, held := Step(heap, proc, calls[n], held);
      assert (outs + [out])[..n] == outs;
      outs := outs + [out];
    }
    assert calls[..|calls|] == calls;
    Owned(heap, proc, held);
  }
}
