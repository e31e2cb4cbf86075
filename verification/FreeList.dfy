/**
 The free list of umalloc.c as data. Addresses are in bytes; a header takes HDR bytes and s.size counts
 headers. The list is circular and, read from base, ascending.
 */
module FreeList {
  import opened Keys
  const HDR: nat := 8

  type Links = map<nat, nat>
  type Sizes = map<nat, nat>

  /** p + p->s.size, in Header arithmetic. */
  function End(size: Sizes, p: nat): nat
    requires p in size
  {
    p + HDR * size[p]
  }

  function NextIndex(fl: seq<nat>, i: nat): nat
    requires i < |fl|
  {
    if i + 1 < |fl| then i + 1 else 0
  }

  predicate AllIn(fl: seq<nat>, m: map<nat, nat>) {
    forall i :: 0 <= i < |fl| ==> fl[i] in m
  }

  // Circular is used one entry at a time, where See names the entry.

  /** Each entry points to the next, the last one back to the first: one wrap point. */
  predicate Circular(fl: seq<nat>, ptr: Links) {
    forall i: nat {:trigger See(i)} :: See(i) && i < |fl| ==> fl[i] in ptr && ptr[fl[i]] == fl[NextIndex(fl, i)]
  }

  /** base comes first and is empty; blocks ascend without touching: nothing is left to coalesce. */
  predicate Coalesced(fl: seq<nat>, size: Sizes) {
    fl != [] && AllIn(fl, size) && size[fl[0]] == 0 &&
    (forall i :: 0 < i < |fl| ==> size[fl[i]] > 0) &&
    (forall i, j :: 0 <= i < j < |fl| ==> End(size, fl[i]) < fl[j])
  }

  predicate Ascending(fl: seq<nat>) {
    forall i, j :: 0 <= i < j < |fl| ==> fl[i] < fl[j]
  }

  lemma CoalescedAscends(fl: seq<nat>, size: Sizes)
    requires Coalesced(fl, size)
    ensures Ascending(fl)
  {
    forall i, j | 0 <= i < j < |fl|
      ensures fl[i] < fl[j]
    {
      assert fl[i] <= End(size, fl[i]) < fl[j];
    }
  }

  predicate ListOk(fl: seq<nat>, ptr: Links, size: Sizes) {
    Circular(fl, ptr) && Coalesced(fl, size)
  }

  /** Units in the first n blocks. */
  function UnitsTo(fl: seq<nat>, size: Sizes, n: nat): nat
    requires AllIn(fl, size) && n <= |fl|
  {
    if n == 0 then 0 else UnitsTo(fl, size, n - 1) + size[fl[n - 1]]
  }

  function Units(fl: seq<nat>, size: Sizes): nat
    requires AllIn(fl, size)
  {
    UnitsTo(fl, size, |fl|)
  }

  // ---------- list surgery ----------

  function Dropped(fl: seq<nat>, k: nat): seq<nat>
    requires k < |fl|
  {
    fl[..k] + fl[k + 1..]
  }

  function Inserted(fl: seq<nat>, k: nat, b: nat): seq<nat>
    requires k <= |fl|
  {
    fl[..k] + [b] + fl[k..]
  }

  lemma {:induction false} UnitsFrame(fl: seq<nat>, size: Sizes, fl': seq<nat>, size': Sizes, n: nat)
    requires AllIn(fl, size) && AllIn(fl', size') && n <= |fl| && n <= |fl'|
    requires forall i :: 0 <= i < n ==> fl'[i] == fl[i] && size'[fl[i]] == size[fl[i]]
    ensures UnitsTo(fl', size', n) == UnitsTo(fl, size, n)
  {
    if n > 0 {
      UnitsFrame(fl, size, fl', size', n - 1);
    }
  }

  lemma {:induction false} DropUnitsTo(fl: seq<nat>, size: Sizes, k: nat, n: nat)
    requires AllIn(fl, size) && k < n <= |fl|
    ensures AllIn(Dropped(fl, k), size)
    ensures UnitsTo(fl, size, n) == UnitsTo(Dropped(fl, k), size, n - 1) + size[fl[k]]
  {
    var fl' := Dropped(fl, k);
    assert forall i :: 0 <= i < |fl'| ==> fl'[i] == fl[if i < k then i else i + 1];
    if n == k + 1 {
      UnitsFrame(fl, size, fl', size, k);
    } else {
      DropUnitsTo(fl, size, k, n - 1);
    }
  }

  lemma DropUnits(fl: seq<nat>, size: Sizes, k: nat)
    requires AllIn(fl, size) && k < |fl|
    ensures AllIn(Dropped(fl, k), size) && Units(fl, size) == Units(Dropped(fl, k), size) + size[fl[k]]
  {
    DropUnitsTo(fl, size, k, |fl|);
  }

  lemma InsertUnits(fl: seq<nat>, size: Sizes, k: nat, b: nat)
    requires AllIn(fl, size) && k <= |fl| && b in size
    ensures AllIn(Inserted(fl, k, b), size) && Units(Inserted(fl, k, b), size) == Units(fl, size) + size[b]
  {
    assert Dropped(Inserted(fl, k, b), k) == fl;
    DropUnits(Inserted(fl, k, b), size, k);
  }

  lemma ResizeUnits(fl: seq<nat>, size: Sizes, k: nat, n: nat)
    requires Coalesced(fl, size) && k < |fl|
    ensures AllIn(fl, size[fl[k] := n]) && Units(fl, size[fl[k] := n]) == Units(fl, size) - size[fl[k]] + n
  {
    var size' := size[fl[k] := n];
    DropUnits(fl, size, k);
    DropUnits(fl, size', k);
    CoalescedAscends(fl, size);
    assert forall i :: 0 <= i < |Dropped(fl, k)| ==> Dropped(fl, k)[i] != fl[k];
    UnitsFrame(Dropped(fl, k), size, Dropped(fl, k), size', |fl| - 1);
  }

  lemma UnlinkCircular(fl: seq<nat>, ptr: Links, k: nat)
    requires Circular(fl, ptr) && Ascending(fl) && 0 < k < |fl|
    ensures fl[k] in ptr && Circular(Dropped(fl, k), ptr[fl[k - 1] := ptr[fl[k]]])
  {
    assert See(k);
    var (fl', ptr') := (Dropped(fl, k), ptr[fl[k - 1] := ptr[fl[k]]]);
    forall i: nat | See(i) && i < |fl'|
      ensures fl'[i] in ptr' && ptr'[fl'[i]] == fl'[NextIndex(fl', i)]
    {
      var o := if i < k then i else i + 1;
      assert fl'[i] == fl[o] && See(o);
      assert o != k - 1 ==> fl[o] != fl[k - 1];
    }
  }

  lemma DropCoalesced(fl: seq<nat>, size: Sizes, k: nat)
    requires Coalesced(fl, size) && 0 < k < |fl|
    ensures Coalesced(Dropped(fl, k), size)
  {
    var fl' := Dropped(fl, k);
    assert forall i :: 0 <= i < |fl'| ==> fl'[i] == fl[if i < k then i else i + 1];
  }

  /** prevp->s.ptr = p->s.ptr takes p = fl[k] off the list. */
  lemma Unlink(fl: seq<nat>, ptr: Links, size: Sizes, k: nat)
    requires ListOk(fl, ptr, size) && 0 < k < |fl|
    ensures fl[k] in ptr && ListOk(Dropped(fl, k), ptr[fl[k - 1] := ptr[fl[k]]], size)
    ensures Units(Dropped(fl, k), size) == Units(fl, size) - size[fl[k]]
  {
    CoalescedAscends(fl, size);
    UnlinkCircular(fl, ptr, k);
    DropUnits(fl, size, k);
    DropCoalesced(fl, size, k);
  }

  lemma LinkCircular(fl: seq<nat>, ptr: Links, k: nat, b: nat)
    requires Circular(fl, ptr) && Ascending(fl) && 0 < k <= |fl| && b !in fl
    ensures fl[k - 1] in ptr && Circular(Inserted(fl, k, b), ptr[b := ptr[fl[k - 1]]][fl[k - 1] := b])
  {
    assert See(k - 1);
    var (fl', ptr') := (Inserted(fl, k, b), ptr[b := ptr[fl[k - 1]]][fl[k - 1] := b]);
    forall i: nat | See(i) && i < |fl'|
      ensures fl'[i] in ptr' && ptr'[fl'[i]] == fl'[NextIndex(fl', i)]
    {
      if i != k {
        var o := if i < k then i else i - 1;
        assert fl'[i] == fl[o] && fl[o] in fl && See(o);
        assert o != k - 1 ==> fl[o] != fl[k - 1];
      }
    }
  }

  lemma BeforeAfter(fl: seq<nat>, size: Sizes, k: nat, b: nat)
    requires Coalesced(fl, size) && 0 < k <= |fl| && b in size && size[b] > 0
    requires End(size, fl[k - 1]) < b && (k < |fl| ==> End(size, b) < fl[k])
    ensures forall i :: 0 <= i < k ==> End(size, fl[i]) < b
    ensures forall i :: k <= i < |fl| ==> End(size, b) < fl[i]
  {
    CoalescedAscends(fl, size);
    assert forall i :: 0 <= i < k - 1 ==> End(size, fl[i]) < fl[k - 1];
  }

  lemma InsertedAt(fl: seq<nat>, k: nat, b: nat, i: nat)
    requires k <= |fl| && i <= |fl|
    ensures |Inserted(fl, k, b)| == |fl| + 1
    ensures Inserted(fl, k, b)[i] == if i < k then fl[i] else if i == k then b else fl[i - 1]
  {
  }

  lemma InsertedApart(fl: seq<nat>, size: Sizes, k: nat, b: nat, i: nat, j: nat)
    requires Coalesced(fl, size) && 0 < k <= |fl| && b in size && size[b] > 0 && i < j <= |fl|
    requires End(size, fl[k - 1]) < b && (k < |fl| ==> End(size, b) < fl[k])
    ensures Inserted(fl, k, b)[i] in size && Inserted(fl, k, b)[j] in size
    ensures End(size, Inserted(fl, k, b)[i]) < Inserted(fl, k, b)[j] && size[Inserted(fl, k, b)[j]] > 0
  {
    InsertedAt(fl, k, b, i);
    InsertedAt(fl, k, b, j);
    BeforeAfter(fl, size, k, b);
  }

  lemma InsertCoalesced(fl: seq<nat>, size: Sizes, k: nat, b: nat)
    requires Coalesced(fl, size) && 0 < k <= |fl| && b in size && size[b] > 0
    requires End(size, fl[k - 1]) < b && (k < |fl| ==> End(size, b) < fl[k])
    ensures Coalesced(Inserted(fl, k, b), size) && b !in fl
  {
    var fl' := Inserted(fl, k, b);
    BeforeAfter(fl, size, k, b);
    InsertedAt(fl, k, b, 0);
    forall i, j | 0 <= i < j < |fl'|
      ensures fl'[i] in size && fl'[j] in size && End(size, fl'[i]) < fl'[j] && size[fl'[j]] > 0
    {
      InsertedApart(fl, size, k, b, i, j);
    }
    assert forall j :: 0 < j < |fl'| ==> fl'[j] in size && size[fl'[j]] > 0 by {
      forall j | 0 < j < |fl'|
        ensures fl'[j] in size && size[fl'[j]] > 0
      {
        InsertedApart(fl, size, k, b, 0, j);
      }
    }
  }

  /** bp->s.ptr = p->s.ptr; p->s.ptr = bp, for p = fl[k - 1] and a bp that touches neither neighbour. */
  lemma Link(fl: seq<nat>, ptr: Links, size: Sizes, k: nat, b: nat)
    requires ListOk(fl, ptr, size) && 0 < k <= |fl| && b in size && size[b] > 0
    requires End(size, fl[k - 1]) < b && (k < |fl| ==> End(size, b) < fl[k])
    ensures fl[k - 1] in ptr && ListOk(Inserted(fl, k, b), ptr[b := ptr[fl[k - 1]]][fl[k - 1] := b], size)
  {
    CoalescedAscends(fl, size);
    InsertCoalesced(fl, size, k, b);
    LinkCircular(fl, ptr, k, b);
  }

  /** Changing the size of block k, short of the next one. */
  lemma Resize(fl: seq<nat>, size: Sizes, k: nat, n: nat)
    requires Coalesced(fl, size) && 0 < k < |fl| && n > 0 && (k + 1 < |fl| ==> fl[k] + HDR * n < fl[k + 1])
    ensures Coalesced(fl, size[fl[k] := n])
  {
    var size' := size[fl[k] := n];
    CoalescedAscends(fl, size);
    assert forall i :: 0 <= i < |fl| && i != k ==> End(size', fl[i]) == End(size, fl[i]);
    assert forall j :: k + 1 < j < |fl| ==> fl[k + 1] < fl[j];
  }
}
