/** pipewrite, piperead and pipeclose of pipe.c by any number of readers and writers. */
module Pipe {
  import opened Words
  import opened Wrappers
  import opened Blocks
  import opened Monitor

  const PIPESIZE: nat := 512
  const NREAD: nat := 0  // &p->nread: readers sleep here
  const NWRITE: nat := 1 // &p->nwrite: writers sleep here

  /** The counters are 32-bit and wrap. */
  datatype PipeData = PipeData(data: seq<Byte>, nread: nat, nwrite: nat, readopen: bool, writeopen: bool)

  predicate Full(d: PipeData) {
    d.nwrite == (d.nread + PIPESIZE) % U32
  }

  predicate Empty(d: PipeData) {
    d.nread == d.nwrite
  }

  /** Nobody has a reason to be asleep on the channel. */
  predicate Go?(c: nat, d: PipeData) {
    if c == NREAD then !Empty(d) || !d.writeopen else !Full(d) || !d.readopen
  }

  function PipeRules(chans: set<nat>): Rules<PipeData> {
    Rules(chans, Go?)
  }

  function Put(d: PipeData, b: Byte): PipeData {
    if |d.data| != PIPESIZE then d else
      d.(data := d.data[d.nwrite % PIPESIZE := b], nwrite := (d.nwrite + 1) % U32)
  }

  function Take(d: PipeData): (PipeData, Byte) {
    if |d.data| != PIPESIZE then (d, 0) else
      (d.(nread := (d.nread + 1) % U32), d.data[d.nread % PIPESIZE])
  }

  /** Where a process is; a process asleep in a loop is at the loop's test. */
  datatype Local =
    | Idle
    | WTop(src: seq<Byte>, i: nat)  // pipewrite: for and while tests
    | WWake(src: seq<Byte>, i: nat) // wakeup(&p->nread) before sleeping
    | WDone(src: seq<Byte>)         // wakeup(&p->nread) before returning
    | RTop(n: nat)                  // piperead: while test
    | RCopy(n: nat, got: seq<Byte>) // for loop
    | RDone(n: nat, got: seq<Byte>) // wakeup(&p->nwrite)
    | CTop(writable: bool)          // pipeclose
    | CWake(writable: bool)
    | CDone(writable: bool)

  /** What a call came to: the buffer or the source, and the number of the write. */
  datatype Answer =
    | Wrote(src: seq<Byte>, id: nat)               // pipewrite returns |src|
    | WriteFailed(src: seq<Byte>, i: nat, id: nat) // -1
    | Read(n: nat, bytes: seq<Byte>)               // piperead returns |bytes|
    | ReadFailed(n: nat)                           // -1
    | Closed

  /** writers[k] is the number of the write that stored byte k, ids[p] that of process p's last write. */
  datatype Past = Past(writers: seq<nat>, ids: seq<nat>, writes: nat, answers: seq<Answer>)

  datatype Sys = Sys(mon: State<PipeData>, locals: seq<Local>, killed: seq<bool>,
                     stored: seq<Byte>, delivered: seq<Byte>, past: Past)

  datatype Step =
    | StartWrite(p: nat, src: seq<Byte>)
    | StartRead(p: nat, n: nat)
    | StartClose(p: nat, writable: bool)
    | Go(p: nat)                   // the next action of a process that holds p->lock
    | Kernel(e: Label<PipeData>)   // the insides of sleep and wakeup, and kill

  predicate Writing(l: Local) {
    l.WTop? || l.WWake? || l.WDone?
  }

  predicate Reading(l: Local) {
    l.RTop? || l.RCopy? || l.RDone?
  }

  /** One action under p->lock: what it does to the monitor, and where it leaves the process. */
  function Action(p: nat, l: Local, d: PipeData, killed: bool): (Label<PipeData>, Local) {
    match l
    case WTop(src, i) =>
      if i >= |src| then (Wakeup(p, NREAD), WDone(src))
      else if Full(d) then
        if !d.readopen || killed then (Release(p), Idle) else (Wakeup(p, NREAD), WWake(src, i))
      else (Act(p, Put(d, src[i])), WTop(src, i + 1))
    case WWake(src, i) => (Sleep(p, NWRITE), WTop(src, i))
    case RTop(n) =>
      if Empty(d) && d.writeopen then
        if killed then (Release(p), Idle) else (Sleep(p, NREAD), RTop(n))
      else (Act(p, d), RCopy(n, []))
    case RCopy(n, got) =>
      if |got| < n && !Empty(d) then (Act(p, Take(d).0), RCopy(n, got + [Take(d).1]))
      else (Wakeup(p, NWRITE), RDone(n, got))
    case CTop(w) => (Act(p, if w then d.(writeopen := false) else d.(readopen := false)), CWake(w))
    case CWake(w) => (Wakeup(p, if w then NREAD else NWRITE), CDone(w))
    case _ => (Release(p), Idle)
  }

  function Performs(s: Sys, t: Step): Label<PipeData> {
    match t
    case StartWrite(p, _) => Acquire(p)
    case StartRead(p, _) => Acquire(p)
    case StartClose(p, _) => Acquire(p)
    case Go(p) =>
      if p < |s.locals| && p < |s.killed| then Action(p, s.locals[p], s.mon.data, s.killed[p]).0 else Acquire(p)
    case Kernel(e) => e
  }

  /** An end stays open while a process is inside a call on it, and is closed once. */
  predicate Enabled(s: Sys, t: Step) {
    Ready(s.mon, Performs(s, t)) && |s.locals| == |s.killed| == |s.mon.pcs| == |s.past.ids| &&
    match t
    case StartWrite(p, _) => s.locals[p].Idle? && s.mon.data.writeopen
    case StartRead(p, _) => s.locals[p].Idle? && s.mon.data.readopen
    case StartClose(p, w) =>
      s.locals[p].Idle? && (if w then s.mon.data.writeopen else s.mon.data.readopen) &&
      forall l <- s.locals :: if w then !Writing(l) else !Reading(l)
    case Go(p) => p < |s.locals| && !s.locals[p].Idle? && s.mon.pcs[p].Inside?
    case Kernel(e) => Internal(s.mon, e)
  }

  /** What the call that leaves from point l hands to its caller. */
  function AnswerOf(l: Local, id: nat): Answer {
    match l
    case WTop(src, i) => WriteFailed(src, i, id)
    case WDone(src) => Wrote(src, id)
    case RTop(n) => ReadFailed(n)
    case RDone(n, got) => Read(n, got)
    case _ => Closed
  }

  function After(chans: set<nat>, s: Sys, t: Step): Sys
    requires Enabled(s, t)
  {
    var s1 := s.(mon := Next(PipeRules(chans), s.mon, Performs(s, t)));
    match t
    case StartWrite(p, src) =>
      s1.(locals := s.locals[p := WTop(src, 0)],
          past := s.past.(ids := s.past.ids[p := s.past.writes], writes := s.past.writes + 1))
    case StartRead(p, n) => s1.(locals := s.locals[p := RTop(n)])
    case StartClose(p, w) => s1.(locals := s.locals[p := CTop(w)])
    case Go(p) =>
      var (l, l') := (s.locals[p], Action(p, s.locals[p], s.mon.data, s.killed[p]).1);
      var s2 := s1.(locals := s.locals[p := l']);
      if l.WTop? && l'.WTop? then
        s2.(stored := s.stored + [l.src[l.i]], past := s.past.(writers := s.past.writers + [s.past.ids[p]]))
      else if l.RCopy? && l'.RCopy? then s2.(delivered := s.delivered + [Take(s.mon.data).1])
      else if l'.Idle? then s2.(past := s.past.(answers := s.past.answers + [AnswerOf(l, s.past.ids[p])]))
      else s2
    case Kernel(e) => if e.Kill? then s1.(killed := s.killed[e.p := true]) else s1
  }

  function Init(n: nat): Sys {
    Sys(State(None, None, seq(n, i => Outside), PipeData(seq(PIPESIZE, i => 0), 0, 0, true, true), {}),
        seq(n, i => Idle), seq(n, i => false), [], [], Past([], seq(n, i => 0), 0, []))
  }

  function Run(chans: set<nat>, n: nat, ts: seq<Step>): Option<Sys> {
    if ts == [] then Some(Init(n)) else
      match Run(chans, n, ts[..|ts| - 1])
      case None => None
      case Some(s) => if Enabled(s, ts[|ts| - 1]) then Some(After(chans, s, ts[|ts| - 1])) else None
  }

  // ---------- first in, first out ----------

  /** The ring holds, in order, the bytes stored and not yet delivered. */
  ghost predicate Fifo(d: PipeData, stored: seq<Byte>, delivered: seq<Byte>) {
    |d.data| == PIPESIZE && delivered <= stored && |stored| - |delivered| <= PIPESIZE &&
    d.nread == |delivered| % U32 && d.nwrite == |stored| % U32 &&
    forall k :: |delivered| <= k < |stored| ==> d.data[k % PIPESIZE] == stored[k]
  }

  /** PIPESIZE divides 2^32, so the ring index survives the wrap of the counters. */
  lemma Wrap(n: nat)
    ensures n % U32 % PIPESIZE == n % PIPESIZE
  {
    assert n == U32 * (n / U32) + n % U32;
    assert U32 == PIPESIZE * 0x80_0000;
    assert n % U32 == n - PIPESIZE * (0x80_0000 * (n / U32));
  }

  lemma Scale(w: nat, k: int)
    ensures if k >= 1 then w * k >= w else w * k <= 0
  {}

  lemma Residues(a: nat, b: nat, w: nat)
    requires a < b < a + w
    ensures a % w != b % w
  {
    var k := b / w - a / w;
    assert b - a == w * k + (b % w - a % w) by {
      assert a == w * (a / w) + a % w && b == w * (b / w) + b % w;
      assert w * k == w * (b / w) - w * (a / w);
    }
    Scale(w, k);
  }

  lemma WrapAdd(n: nat, k: nat)
    ensures (n % U32 + k) % U32 == (n + k) % U32
  {
    assert n == U32 * (n / U32) + n % U32;
  }

  /** Two counters at most PIPESIZE apart are told apart by their residues. */
  lemma Counters(a: nat, b: nat)
    requires a <= b <= a + PIPESIZE
    ensures a % U32 == b % U32 <==> a == b
    ensures b % U32 == (a % U32 + PIPESIZE) % U32 <==> b == a + PIPESIZE
  {
    if a < b {
      Residues(a, b, U32);
    }
    WrapAdd(a, PIPESIZE);
    if b < a + PIPESIZE {
      Residues(b, a + PIPESIZE, U32);
    }
  }

  lemma Occupancy(d: PipeData, stored: seq<Byte>, delivered: seq<Byte>)
    requires Fifo(d, stored, delivered)
    ensures Empty(d) <==> |stored| == |delivered|
    ensures Full(d) <==> |stored| - |delivered| == PIPESIZE
  {
    Counters(|delivered|, |stored|);
  }

  lemma PutFifo(d: PipeData, stored: seq<Byte>, delivered: seq<Byte>, b: Byte)
    requires Fifo(d, stored, delivered) && !Full(d)
    ensures Fifo(Put(d, b), stored + [b], delivered)
  {
    Occupancy(d, stored, delivered);
    var n := |stored|;
    Wrap(n);
    WrapAdd(n, 1);
    forall k | |delivered| <= k < n
      ensures k % PIPESIZE != n % PIPESIZE
    {
      Residues(k, n, PIPESIZE);
    }
  }

  lemma TakeFifo(d: PipeData, stored: seq<Byte>, delivered: seq<Byte>)
    requires Fifo(d, stored, delivered) && !Empty(d)
    ensures Fifo(Take(d).0, stored, delivered + [Take(d).1])
  {
    Occupancy(d, stored, delivered);
    var n := |delivered|;
    Wrap(n);
    WrapAdd(n, 1);
  }

  /** Over any run, with kills and closes, bytes come out in the order they went in and never overrun the ring. */
  lemma {:induction false} PipeFifo(chans: set<nat>, n: nat, ts: seq<Step>)
    requires Run(chans, n, ts).Some?
    ensures var s := Run(chans, n, ts).value; Fifo(s.mon.data, s.stored, s.delivered)
  {
    if ts != [] {
      var k := |ts| - 1;
      PipeFifo(chans, n, ts[..k]);
      var s := Run(chans, n, ts[..k]).value;
      FifoStep(chans, s, ts[k]);
    }
  }

  lemma FifoStep(chans: set<nat>, s: Sys, t: Step)
    requires Enabled(s, t) && Fifo(s.mon.data, s.stored, s.delivered)
    ensures var s' := After(chans, s, t); Fifo(s'.mon.data, s'.stored, s'.delivered)
  {
    if t.Go? {
      match s.locals[t.p]
      case WTop(src, i) =>
        if i < |src| && !Full(s.mon.data) {
          PutFifo(s.mon.data, s.stored, s.delivered, src[i]);
        }
      case RCopy(_, _) =>
        if !Empty(s.mon.data) {
          TakeFifo(s.mon.data, s.stored, s.delivered);
        }
      case _ =>
    }
  }
}
