/** What pipewrite and piperead hand to their callers, over every run with any readers, writers, kills and closes. */
module PipeCalls {
  import opened Wrappers
  import opened Blocks
  import opened Monitor
  import opened Pipe
  import opened PipeWakeup

  const ROOM: set<nat> := {NWRITE}

  // ---------- readers ----------

  /** The buffers of the reads that have returned, one after the other. */
  function Handed(answers: seq<Answer>): seq<Byte> {
    if answers == [] then [] else
      Handed(answers[..|answers| - 1]) + if answers[|answers| - 1].Read? then answers[|answers| - 1].bytes else []
  }

  /** What the process with the lock has copied to its caller so far. */
  function InHand(s: Sys): seq<Byte> {
    if s.mon.lk.None? || s.mon.lk.value >= |s.locals| then [] else
      match s.locals[s.mon.lk.value]
      case RCopy(_, got) => got
      case RDone(_, got) => got
      case _ => []
  }

  /** A read copies at most n bytes, stops early only at an empty pipe, and copies none only at its end. */
  predicate ReaderOk(l: Local, d: PipeData) {
    match l
    case RCopy(n, got) => |got| <= n && (n > 0 && got == [] ==> !Empty(d) || !d.writeopen)
    case RDone(n, got) =>
      |got| <= n && (|got| < n ==> Empty(d)) && (n > 0 && got == [] ==> Empty(d) && !d.writeopen)
    case _ => true
  }

  predicate ReadsOk(s: Sys) {
    && s.delivered == Handed(s.past.answers) + InHand(s)
    && (forall p :: 0 <= p < |s.locals| ==> ReaderOk(s.locals[p], s.mon.data))
    && forall k :: 0 <= k < |s.past.answers| ==>
         (s.past.answers[k].Read? ==> |s.past.answers[k].bytes| <= s.past.answers[k].n)
  }

  lemma HandedSnoc(answers: seq<Answer>, a: Answer)
    ensures Handed(answers + [a]) == Handed(answers) + if a.Read? then a.bytes else []
  {
    assert (answers + [a])[..|answers|] == answers;
  }

  /** A process that copies or has copied holds the lock. */
  lemma Copying(s: Sys, p: nat)
    requires LocksOk(s.mon) && Places(s) && p < |s.locals| && (s.locals[p].RCopy? || s.locals[p].RDone?)
    ensures s.mon.lk == Some(p)
  {
    assert Matches(s.locals[p], s.mon.pcs[p]);
  }

  /** The steps that are not an action under the lock. */
  lemma ReadsRest(chans: set<nat>, s: Sys, t: Step)
    requires LocksOk(s.mon) && Places(s) && Enabled(s, t) && !t.Go? && ReadsOk(s)
    ensures ReadsOk(After(chans, s, t))
  {
    var s' := After(chans, s, t);
    assert s'.mon.data == s.mon.data && s'.past.answers == s.past.answers && s'.delivered == s.delivered;
    assert InHand(s') == InHand(s) by {
      if t.Kernel? {
        assert s'.locals == s.locals;
        if s.mon.lk.Some? {
          var p := s.mon.lk.value;
          assert Matches(s.locals[p], s.mon.pcs[p]);
        }
        if s'.mon.lk.Some? {
          var p := s'.mon.lk.value;
          assert p < |s.mon.pcs| ==> Matches(s.locals[p], s.mon.pcs[p]);
        }
      }
    }
  }

  /** The copying loop: a byte goes to the end of the buffer, or the loop is over. */
  lemma ReadsCopy(chans: set<nat>, s: Sys, p: nat)
    requires LocksOk(s.mon) && Places(s) && Enabled(s, Go(p)) && ReadsOk(s) && s.locals[p].RCopy?
    requires Fifo(s.mon.data, s.stored, s.delivered) && s.mon.lk == Some(p)
    ensures var s' := After(chans, s, Go(p));
            && s'.delivered == Handed(s'.past.answers) + InHand(s') && s'.past.answers == s.past.answers
            && ReaderOk(s'.locals[p], s'.mon.data)
  {
    var s', l := After(chans, s, Go(p)), s.locals[p];
    assert ReaderOk(l, s.mon.data);
    if |l.got| < l.n && !Empty(s.mon.data) {
      assert InHand(s') == InHand(s) + [Take(s.mon.data).1];
    } else {
      assert InHand(s') == InHand(s);
    }
  }

  /** One action outside the copying loop, for the reader that makes it. */
  lemma ReaderGo(p: nat, l: Local, d: PipeData, killed: bool)
    requires !l.RCopy? && ReaderOk(l, d)
    ensures var (e, l') := Action(p, l, d, killed);
            && !l'.RDone? && (l'.RCopy? ==> l'.got == [] && e == Act(p, d) && ReaderOk(l', d))
            && (l'.Idle? ==> e == Release(p)) && (l.RDone? ==> l'.Idle?)
  {}

  /** A process leaves its call. */
  lemma ReadsOut(chans: set<nat>, s: Sys, p: nat)
    requires Enabled(s, Go(p)) && ReadsOk(s) && s.mon.lk == Some(p) && !s.locals[p].RCopy?
    requires Action(p, s.locals[p], s.mon.data, s.killed[p]) == (Release(p), Idle)
    ensures var s' := After(chans, s, Go(p)); s'.delivered == Handed(s'.past.answers) + InHand(s')
  {
    var s', l := After(chans, s, Go(p)), s.locals[p];
    HandedSnoc(s.past.answers, AnswerOf(l, s.past.ids[p]));
    assert s'.mon.lk.None? && InHand(s') == [];
    assert InHand(s) == if l.RDone? then l.got else [];
  }

  /** A process that is not copying moves on inside its call. */
  lemma ReadsOn(chans: set<nat>, s: Sys, p: nat)
    requires LocksOk(s.mon) && Enabled(s, Go(p)) && ReadsOk(s) && s.mon.lk == Some(p)
    requires !s.locals[p].RCopy? && !s.locals[p].RDone?
    requires var l' := Action(p, s.locals[p], s.mon.data, s.killed[p]).1;
             !l'.Idle? && !l'.RDone? && (l'.RCopy? ==> l'.got == [])
    ensures var s' := After(chans, s, Go(p)); s'.delivered == Handed(s'.past.answers) + InHand(s')
  {
    var s' := After(chans, s, Go(p));
    assert s'.past.answers == s.past.answers && s'.delivered == s.delivered;
    assert InHand(s) == [];
    assert s'.mon.lk.None? || s'.mon.lk == Some(p);
    assert InHand(s') == [];
  }

  lemma ReadsMove(chans: set<nat>, s: Sys, p: nat)
    requires LocksOk(s.mon) && Enabled(s, Go(p)) && ReadsOk(s) && !s.locals[p].RCopy?
    requires s.mon.lk == Some(p)
    ensures var s' := After(chans, s, Go(p));
            && s'.delivered == Handed(s'.past.answers) + InHand(s') && ReaderOk(s'.locals[p], s'.mon.data)
  {
    ReaderGo(p, s.locals[p], s.mon.data, s.killed[p]);
    if Action(p, s.locals[p], s.mon.data, s.killed[p]).1.Idle? {
      ReadsOut(chans, s, p);
    } else {
      ReadsOn(chans, s, p);
    }
  }

  lemma ReadsSizes(chans: set<nat>, s: Sys, p: nat)
    requires Enabled(s, Go(p)) && ReadsOk(s)
    ensures var answers := After(chans, s, Go(p)).past.answers;
            forall k :: 0 <= k < |answers| ==> (answers[k].Read? ==> |answers[k].bytes| <= answers[k].n)
  {
    var l := s.locals[p];
    assert ReaderOk(l, s.mon.data);
  }

  /** An action under the lock. */
  lemma ReadsGo(chans: set<nat>, s: Sys, p: nat)
    requires LocksOk(s.mon) && Places(s) && Enabled(s, Go(p)) && ReadsOk(s)
    requires Fifo(s.mon.data, s.stored, s.delivered)
    ensures ReadsOk(After(chans, s, Go(p)))
  {
    var s' := After(chans, s, Go(p));
    assert s.mon.lk == Some(p);
    forall q | 0 <= q < |s'.locals| && q != p
      ensures ReaderOk(s'.locals[q], s'.mon.data)
    {
      assert s'.locals[q] == s.locals[q];
      if s.locals[q].RCopy? || s.locals[q].RDone? {
        Copying(s, q);
        assert false;
      }
    }
    ReadsSizes(chans, s, p);
    if s.locals[p].RCopy? {
      ReadsCopy(chans, s, p);
    } else {
      ReadsMove(chans, s, p);
    }
  }

  lemma {:induction false} ReadsRun(n: nat, ts: seq<Step>)
    requires Run(ROOM, n, ts).Some?
    ensures ReadsOk(Run(ROOM, n, ts).value)
  {
    if ts != [] {
      var k := |ts| - 1;
      ReadsRun(n, ts[..k]);
      RunOk(ROOM, n, ts[..k]);
      var s := Run(ROOM, n, ts[..k]).value;
      if ts[k].Go? {
        PipeFifo(ROOM, n, ts[..k]);
        ReadsGo(ROOM, s, ts[k].p);
      } else {
        ReadsRest(ROOM, s, ts[k]);
      }
    }
  }

  // ---------- writers ----------

  /** The bytes that write number id has stored, in order. */
  function Stored(stored: seq<Byte>, writers: seq<nat>, id: nat): seq<Byte>
    requires |writers| == |stored|
  {
    if stored == [] then [] else
      var k := |stored| - 1;
      Stored(stored[..k], writers[..k], id) + if writers[k] == id then [stored[k]] else []
  }

  lemma StoredSnoc(stored: seq<Byte>, writers: seq<nat>, b: Byte, w: nat, id: nat)
    requires |writers| == |stored|
    ensures Stored(stored + [b], writers + [w], id) == Stored(stored, writers, id) + if w == id then [b] else []
  {
    assert (stored + [b])[..|stored|] == stored && (writers + [w])[..|stored|] == writers;
  }

  /** How far the write of a process at l has come. */
  predicate WriterOk(l: Local, mine: seq<Byte>) {
    match l
    case WTop(src, i) => i <= |src| && mine == src[..i]
    case WWake(src, i) => i < |src| && mine == src[..i]
    case WDone(src) => mine == src
    case _ => true
  }

  /** A write that succeeded stored all of its source, one that failed a proper part from the start. */
  predicate WrittenOk(a: Answer, mine: seq<Byte>) {
    match a
    case Wrote(src, _) => mine == src
    case WriteFailed(src, i, _) => i < |src| && mine == src[..i]
    case _ => true
  }

  predicate IsWrite(a: Answer) {
    a.Wrote? || a.WriteFailed?
  }

  predicate WritesOk(s: Sys) {
    && |s.past.writers| == |s.stored| && |s.past.ids| == |s.locals|
    && (forall k :: 0 <= k < |s.past.writers| ==> s.past.writers[k] < s.past.writes)
    && (forall p :: 0 <= p < |s.locals| && Writing(s.locals[p]) ==>
          s.past.ids[p] < s.past.writes && WriterOk(s.locals[p], Stored(s.stored, s.past.writers, s.past.ids[p])))
    && (forall p, q :: 0 <= p < q < |s.locals| && Writing(s.locals[p]) && Writing(s.locals[q]) ==>
          s.past.ids[p] != s.past.ids[q])
    && forall k :: 0 <= k < |s.past.answers| && IsWrite(s.past.answers[k]) ==>
         var a := s.past.answers[k];
         && a.id < s.past.writes && WrittenOk(a, Stored(s.stored, s.past.writers, a.id))
         && forall p :: 0 <= p < |s.locals| && Writing(s.locals[p]) ==> s.past.ids[p] != a.id
  }

  /** A number not given out yet has stored nothing. */
  lemma {:induction false} StoredNone(stored: seq<Byte>, writers: seq<nat>, id: nat)
    requires |writers| == |stored| && forall k :: 0 <= k < |writers| ==> writers[k] < id
    ensures Stored(stored, writers, id) == []
  {
    if stored != [] {
      StoredNone(stored[..|stored| - 1], writers[..|stored| - 1], id);
    }
  }

  /** One process moves on, perhaps out of its call. */
  lemma WritesMove(s: Sys, s': Sys, p: nat, l: Local, answers: seq<Answer>)
    requires WritesOk(s) && p < |s.locals| && s'.locals == s.locals[p := l] && s'.stored == s.stored
    requires s'.past == s.past.(answers := s.past.answers + answers) && |answers| <= 1
    requires Writing(l) ==> Writing(s.locals[p]) && WriterOk(l, Stored(s.stored, s.past.writers, s.past.ids[p]))
    requires forall a <- answers :: IsWrite(a) ==>
      && Writing(s.locals[p]) && l.Idle? && a.id == s.past.ids[p]
      && WrittenOk(a, Stored(s.stored, s.past.writers, s.past.ids[p]))
    ensures WritesOk(s')
  {
    forall k | 0 <= k < |s'.past.answers| && IsWrite(s'.past.answers[k])
      ensures var a := s'.past.answers[k];
              && a.id < s.past.writes && WrittenOk(a, Stored(s.stored, s.past.writers, a.id))
              && forall q :: 0 <= q < |s'.locals| && Writing(s'.locals[q]) ==> s.past.ids[q] != a.id
    {
      if k >= |s.past.answers| {
        assert s'.past.answers[k] in answers;
      }
    }
  }

  lemma WritesStart(chans: set<nat>, s: Sys, p: nat, src: seq<Byte>)
    requires Enabled(s, StartWrite(p, src)) && WritesOk(s)
    ensures WritesOk(After(chans, s, StartWrite(p, src)))
  {
    StoredNone(s.stored, s.past.writers, s.past.writes);
    assert src[..0] == [];
  }

  lemma WritesRest(chans: set<nat>, s: Sys, t: Step)
    requires Enabled(s, t) && !t.Go? && WritesOk(s)
    ensures WritesOk(After(chans, s, t))
  {
    var s' := After(chans, s, t);
    if t.StartWrite? {
      WritesStart(chans, s, t.p, t.src);
    } else if !t.Kernel? {
      WritesMove(s, s', t.p, s'.locals[t.p], []);
    }
  }

  /** The step that stores a byte. */
  predicate StoresByte(s: Sys, p: nat)
    requires Enabled(s, Go(p))
  {
    s.locals[p].WTop? && Action(p, s.locals[p], s.mon.data, s.killed[p]).1.WTop?
  }

  lemma WritesStore(chans: set<nat>, s: Sys, p: nat)
    requires Enabled(s, Go(p)) && WritesOk(s) && StoresByte(s, p)
    ensures WritesOk(After(chans, s, Go(p)))
  {
    var s', l, id := After(chans, s, Go(p)), s.locals[p], s.past.ids[p];
    forall w
      ensures Stored(s'.stored, s'.past.writers, w) ==
              Stored(s.stored, s.past.writers, w) + if w == id then [l.src[l.i]] else []
    {
      StoredSnoc(s.stored, s.past.writers, l.src[l.i], id, w);
    }
    assert l.src[..l.i] + [l.src[l.i]] == l.src[..l.i + 1];
  }

  /** One action that stores nothing, for the writer that makes it. */
  lemma WriterGo(p: nat, l: Local, d: PipeData, killed: bool, id: nat, mine: seq<Byte>)
    requires WriterOk(l, mine)
    ensures var l' := Action(p, l, d, killed).1;
            && (Writing(l') ==> Writing(l) && (WriterOk(l', mine) || (l.WTop? && l'.WTop?)))
            && (Writing(l) && l'.Idle? ==> AnswerOf(l, id).id == id && WrittenOk(AnswerOf(l, id), mine))
            && (IsWrite(AnswerOf(l, id)) && l'.Idle? ==> Writing(l))
  {
    if l.WTop? && l.i == |l.src| {
      assert l.src[..l.i] == l.src;
    }
  }

  lemma WritesGo(chans: set<nat>, s: Sys, p: nat)
    requires Enabled(s, Go(p)) && WritesOk(s) && !StoresByte(s, p)
    ensures WritesOk(After(chans, s, Go(p)))
  {
    var s', l, id := After(chans, s, Go(p)), s.locals[p], s.past.ids[p];
    var l' := Action(p, l, s.mon.data, s.killed[p]).1;
    if Writing(l) {
      WriterGo(p, l, s.mon.data, s.killed[p], id, Stored(s.stored, s.past.writers, id));
    } else {
      WriterGo(p, l, s.mon.data, s.killed[p], id, []);
    }
    var answers := if l'.Idle? then [AnswerOf(l, id)] else [];
    assert s'.past.answers == s.past.answers + answers;
    WritesMove(s, s', p, l', answers);
  }

  lemma {:induction false} WritesRun(n: nat, ts: seq<Step>)
    requires Run(ROOM, n, ts).Some?
    ensures WritesOk(Run(ROOM, n, ts).value)
  {
    if ts != [] {
      var k := |ts| - 1;
      WritesRun(n, ts[..k]);
      var s, t := Run(ROOM, n, ts[..k]).value, ts[k];
      if !t.Go? {
        WritesRest(ROOM, s, t);
      } else if StoresByte(s, t.p) {
        WritesStore(ROOM, s, t.p);
      } else {
        WritesGo(ROOM, s, t.p);
      }
    }
  }

  // ---------- what a caller gets ----------

  /** The call process p made last, taken from the run alone. */
  function LastCall(ts: seq<Step>, p: nat): Option<Step> {
    if ts == [] then None else
      var t := ts[|ts| - 1];
      if (t.StartWrite? || t.StartRead? || t.StartClose?) && t.p == p then Some(t) else LastCall(ts[..|ts| - 1], p)
  }

  /** A process at l is inside the call t. */
  predicate Serves(l: Local, t: Option<Step>) {
    match l
    case Idle => true
    case WTop(src, _) => t.Some? && t.value.StartWrite? && t.value.src == src
    case WWake(src, _) => t.Some? && t.value.StartWrite? && t.value.src == src
    case WDone(src) => t.Some? && t.value.StartWrite? && t.value.src == src
    case RTop(n) => t.Some? && t.value.StartRead? && t.value.n == n
    case RCopy(n, _) => t.Some? && t.value.StartRead? && t.value.n == n
    case RDone(n, _) => t.Some? && t.value.StartRead? && t.value.n == n
    case _ => t.Some? && t.value.StartClose?
  }

  lemma ServesStep(chans: set<nat>, s: Sys, t: Step, p: nat, c: Option<Step>)
    requires Enabled(s, t) && p < |s.locals| && Serves(s.locals[p], c)
    ensures var s' := After(chans, s, t);
            && |s'.locals| == |s.locals|
            && Serves(s'.locals[p], if (t.StartWrite? || t.StartRead? || t.StartClose?) && t.p == p then Some(t) else c)
  {}

  lemma {:induction false} ServesRun(chans: set<nat>, n: nat, ts: seq<Step>, p: nat)
    requires Run(chans, n, ts).Some? && p < |Run(chans, n, ts).value.locals|
    ensures Serves(Run(chans, n, ts).value.locals[p], LastCall(ts, p))
  {
    if ts != [] {
      var k := |ts| - 1;
      var s := Run(chans, n, ts[..k]).value;
      assert |s.locals| == |After(chans, s, ts[k]).locals|;
      ServesRun(chans, n, ts[..k], p);
      ServesStep(chans, s, ts[k], p, LastCall(ts[..k], p));
    }
  }

  /** The run makes one more step, with which the call of process p is over. */
  predicate Returns(chans: set<nat>, n: nat, ts: seq<Step>, p: nat) {
    && Run(chans, n, ts).Some? && Enabled(Run(chans, n, ts).value, Go(p))
    && After(chans, Run(chans, n, ts).value, Go(p)).locals[p].Idle?
  }

  lemma ReadLeaves(chans: set<nat>, s: Sys, p: nat)
    requires Enabled(s, Go(p)) && LocksOk(s.mon) && ReadsOk(s) && Reading(s.locals[p])
    requires After(chans, s, Go(p)).locals[p].Idle?
    ensures var s', l := After(chans, s, Go(p)), s.locals[p];
            && s'.mon.data == s.mon.data && s'.past.answers == s.past.answers + [AnswerOf(l, s.past.ids[p])]
            && (if l.RDone? then s'.delivered == Handed(s.past.answers) + l.got && ReaderOk(l, s'.mon.data)
                else && l.RTop? && s.killed[p] && Empty(s'.mon.data) && s'.mon.data.writeopen
                     && s'.delivered == Handed(s.past.answers))
  {
    assert s.mon.lk == Some(p);
    assert ReaderOk(s.locals[p], s.mon.data);
  }

  /**
   * In every run a piperead of m bytes hands over, in order, the bytes delivered since the read before it: at most m,
   * fewer only when it leaves the pipe empty, none only when the write end is closed. It fails only when killed.
   */
  lemma ReadReturns(chans: set<nat>, n: nat, ts: seq<Step>, p: nat, m: nat)
    requires Returns(chans, n, ts, p) && LastCall(ts, p) == Some(StartRead(p, m))
    ensures var s := Run(chans, n, ts).value;
            var s' := After(chans, s, Go(p));
            var d, answers := s'.mon.data, s'.past.answers;
            && |answers| == |s.past.answers| + 1 && answers[..|answers| - 1] == s.past.answers
            && var a := answers[|answers| - 1];
               || (&& a.Read? && a.n == m && |a.bytes| <= m && s'.delivered == Handed(s.past.answers) + a.bytes
                   && (|a.bytes| < m ==> Empty(d)) && (m > 0 && a.bytes == [] ==> !d.writeopen))
               || (&& a == ReadFailed(m) && s.killed[p] && Empty(d) && d.writeopen
                   && s'.delivered == Handed(s.past.answers))
  {
    SameRun(chans, ROOM, n, ts);
    ReadsRun(n, ts);
    RunOk(ROOM, n, ts);
    ServesRun(chans, n, ts, p);
    var s := Run(chans, n, ts).value;
    assert s == Run(ROOM, n, ts).value.(mon := s.mon);
    assert ReadsOk(s);
    ReadLeaves(chans, s, p);
  }

  lemma WriteLeaves(chans: set<nat>, s: Sys, p: nat)
    requires Enabled(s, Go(p)) && WritesOk(s) && Writing(s.locals[p])
    requires After(chans, s, Go(p)).locals[p].Idle?
    ensures var s', l, id := After(chans, s, Go(p)), s.locals[p], s.past.ids[p];
            && s'.mon.data == s.mon.data && s'.stored == s.stored && s'.past.writers == s.past.writers
            && s'.past.answers == s.past.answers + [AnswerOf(l, id)]
            && (l.WDone? || (l.WTop? && l.i < |l.src| && Full(s.mon.data) && (!s.mon.data.readopen || s.killed[p])))
            && WriterOk(l, Stored(s.stored, s.past.writers, id))
            && (forall b <- s.past.answers :: IsWrite(b) ==> b.id != id)
  {
    assert WriterOk(s.locals[p], Stored(s.stored, s.past.writers, s.past.ids[p]));
    forall b <- s.past.answers | IsWrite(b)
      ensures b.id != s.past.ids[p]
    {
      var k :| 0 <= k < |s.past.answers| && s.past.answers[k] == b;
    }
  }

  /**
   * In every run a pipewrite of src that succeeds has stored exactly src, in order; one that fails has stored a proper
   * part from the start of src and found the pipe full, and the read end closed or its process killed.
   */
  lemma WriteReturns(chans: set<nat>, n: nat, ts: seq<Step>, p: nat, src: seq<Byte>)
    requires Returns(chans, n, ts, p) && LastCall(ts, p) == Some(StartWrite(p, src))
    ensures var s := Run(chans, n, ts).value;
            var s' := After(chans, s, Go(p));
            var d, answers := s'.mon.data, s'.past.answers;
            && |answers| == |s.past.answers| + 1 && answers[..|answers| - 1] == s.past.answers
            && |s'.past.writers| == |s'.stored|
            && var a := answers[|answers| - 1];
               && IsWrite(a) && (forall b <- s.past.answers :: IsWrite(b) ==> b.id != a.id)
               && var mine := Stored(s'.stored, s'.past.writers, a.id);
                  || (a == Wrote(src, a.id) && mine == src)
                  || (&& a.WriteFailed? && mine < src && a == WriteFailed(src, |mine|, a.id)
                      && Full(d) && (!d.readopen || s.killed[p]))
  {
    SameRun(chans, ROOM, n, ts);
    WritesRun(n, ts);
    ServesRun(chans, n, ts, p);
    var s := Run(chans, n, ts).value;
    assert s == Run(ROOM, n, ts).value.(mon := s.mon);
    assert WritesOk(s);
    WriteLeaves(chans, s, p);
  }

  // ---------- closing ----------

  predicate Open(d: PipeData, writable: bool) {
    if writable then d.writeopen else d.readopen
  }

  /** The run has a call that closes that end. */
  predicate Shut(ts: seq<Step>, writable: bool) {
    exists k :: 0 <= k < |ts| && ts[k].StartClose? && ts[k].writable == writable
  }

  lemma ShutSnoc(ts: seq<Step>, writable: bool)
    requires ts != []
    ensures var t := ts[|ts| - 1];
            Shut(ts, writable) <==> Shut(ts[..|ts| - 1], writable) || (t.StartClose? && t.writable == writable)
  {
    var us := ts[..|ts| - 1];
    assert forall k :: 0 <= k < |us| ==> us[k] == ts[k];
    if Shut(us, writable) {
      var k :| 0 <= k < |us| && us[k].StartClose? && us[k].writable == writable;
      assert ts[k] == us[k];
    }
  }

  /** A process with the lock is about to close that end. */
  predicate Closing(s: Sys, writable: bool) {
    s.mon.lk.Some? && s.mon.lk.value < |s.locals| && s.locals[s.mon.lk.value] == CTop(writable)
  }

  predicate OpenOk(s: Sys, w: bool, shut: bool) {
    (Open(s.mon.data, w) <==> !shut || Closing(s, w)) && (Closing(s, w) ==> shut)
  }

  lemma OpenRest(chans: set<nat>, s: Sys, t: Step, w: bool, shut: bool)
    requires LocksOk(s.mon) && Places(s) && Enabled(s, t) && t.Kernel? && OpenOk(s, w, shut)
    ensures OpenOk(After(chans, s, t), w, shut)
  {
    var s' := After(chans, s, t);
    assert s'.locals == s.locals && s'.mon.data == s.mon.data;
    assert Closing(s', w) == Closing(s, w) by {
      if s.mon.lk.Some? {
        var p := s.mon.lk.value;
        assert Matches(s.locals[p], s.mon.pcs[p]);
      }
      if s'.mon.lk.Some? {
        var p := s'.mon.lk.value;
        assert p < |s.mon.pcs| ==> Matches(s.locals[p], s.mon.pcs[p]);
      }
    }
  }

  /** What an action does to the ends. */
  lemma OpenAct(p: nat, l: Local, d: PipeData, killed: bool, w: bool)
    ensures var (e, l') := Action(p, l, d, killed);
            && !l'.CTop? && !e.Unlocked?
            && (e.Act? ==> e.p == p && (Open(e.data, w) <==> Open(d, w) && l != CTop(w)))
            && (l.CTop? ==> e.Act?)
  {}

  lemma OpenGo(chans: set<nat>, s: Sys, p: nat, w: bool, shut: bool)
    requires LocksOk(s.mon) && Enabled(s, Go(p)) && OpenOk(s, w, shut)
    ensures OpenOk(After(chans, s, Go(p)), w, shut)
  {
    var s' := After(chans, s, Go(p));
    assert s.mon.lk == Some(p);
    OpenAct(p, s.locals[p], s.mon.data, s.killed[p], w);
    assert s'.mon.lk.None? || s'.mon.lk == Some(p);
    assert !Closing(s', w);
    assert Open(s'.mon.data, w) <==> Open(s.mon.data, w) && s.locals[p] != CTop(w);
  }

  lemma OpenStart(chans: set<nat>, s: Sys, t: Step, w: bool, shut: bool)
    requires LocksOk(s.mon) && Enabled(s, t) && !t.Kernel? && !t.Go? && OpenOk(s, w, shut)
    ensures OpenOk(After(chans, s, t), w, shut || (t.StartClose? && t.writable == w))
  {
    var s' := After(chans, s, t);
    assert s.mon.lk.None? && s'.mon.lk == Some(t.p) && s'.mon.data == s.mon.data;
  }

  lemma OpenStep(chans: set<nat>, s: Sys, t: Step, w: bool, shut: bool)
    requires LocksOk(s.mon) && Places(s) && Enabled(s, t) && OpenOk(s, w, shut)
    ensures OpenOk(After(chans, s, t), w, shut || (t.StartClose? && t.writable == w))
  {
    if t.Kernel? {
      OpenRest(chans, s, t, w, shut);
    } else if t.Go? {
      OpenGo(chans, s, t.p, w, shut);
    } else {
      OpenStart(chans, s, t, w, shut);
    }
  }

  lemma {:induction false} OpenRun(n: nat, ts: seq<Step>, w: bool)
    requires Run(ROOM, n, ts).Some?
    ensures OpenOk(Run(ROOM, n, ts).value, w, Shut(ts, w))
  {
    if ts != [] {
      var k := |ts| - 1;
      OpenRun(n, ts[..k], w);
      RunOk(ROOM, n, ts[..k]);
      OpenStep(ROOM, Run(ROOM, n, ts[..k]).value, ts[k], w, Shut(ts[..k], w));
      ShutSnoc(ts, w);
    }
  }

  /** In every run, with the lock free: an end is closed if and only if pipeclose was called for it. */
  lemma ClosedExactly(chans: set<nat>, n: nat, ts: seq<Step>, w: bool)
    requires Run(chans, n, ts).Some? && Run(chans, n, ts).value.mon.lk.None?
    ensures Open(Run(chans, n, ts).value.mon.data, w) <==> !Shut(ts, w)
  {
    SameRun(chans, ROOM, n, ts);
    OpenRun(n, ts, w);
  }
}
