/** No lost wakeups in pipe.c, and the one way a reader can be left asleep. */
module PipeWakeup {
  import opened Wrappers
  import opened Blocks
  import opened Monitor
  import opened Pipe

  const BOTH: set<nat> := {NREAD, NWRITE}

  function Chan(writable: bool): nat {
    if writable then NREAD else NWRITE
  }

  predicate Matches(l: Local, pc: Pc) {
    match l
    case Idle => pc.Outside?
    case WTop(_, _) => InSleep(pc) && !Dozing(pc, NREAD)
    case RTop(_) => InSleep(pc) && !Dozing(pc, NWRITE)
    case WWake(_, _) => InWakeup(pc, NREAD)
    case WDone(_) => InWakeup(pc, NREAD)
    case RDone(_, _) => InWakeup(pc, NWRITE)
    case CDone(w) => InWakeup(pc, Chan(w))
    case _ => pc.Inside?
  }

  /** The wakeups a process holding p->lock may still owe at each point. */
  function CanOwe(l: Local, pc: Pc): set<nat> {
    match l
    case WTop(_, _) => {NREAD}
    case RCopy(_, _) => {NWRITE}
    case CWake(w) => {Chan(w)}
    case WWake(_, _) => if pc.Inside? then {} else {NREAD}
    case WDone(_) => if pc.Inside? then {} else {NREAD}
    case RDone(_, _) => if pc.Inside? then {} else {NWRITE}
    case CDone(w) => if pc.Inside? then {} else {Chan(w)}
    case _ => {}
  }

  ghost predicate Ok(chans: set<nat>, s: Sys) {
    chans <= {NREAD, NWRITE} && Inv(PipeRules(chans), s.mon) && Places(s) && s.mon.owed <= chans
  }

  /** Program points agree with the monitor; nobody reads once the read end is closing. */
  predicate Places(s: Sys) {
    |s.locals| == |s.mon.pcs| == |s.killed| &&
    (forall p :: 0 <= p < |s.locals| ==> Matches(s.locals[p], s.mon.pcs[p])) &&
    (!s.mon.data.readopen ==> NoReader(s.locals)) &&
    match s.mon.lk
    case None => true
    case Some(p) =>
      p < |s.locals| && s.mon.owed <= CanOwe(s.locals[p], s.mon.pcs[p]) &&
      (s.locals[p].WWake? ==> Full(s.mon.data) && s.mon.data.readopen) &&
      (s.locals[p] == CTop(false) ==> NoReader(s.locals))
  }

  predicate NoReader(locals: seq<Local>) {
    forall p :: 0 <= p < |locals| ==> !Reading(locals[p])
  }

  predicate DozingReader(s: Sys) {
    exists q :: 0 <= q < |s.mon.pcs| && Dozing(s.mon.pcs[q], NREAD)
  }

  /** The exception: a killed writer finds the pipe full and returns at once, while a reader is dozing. */
  predicate Strands(s: Sys, t: Step) {
    t.Go? && t.p < |s.locals| && t.p < |s.killed| && s.locals[t.p].WTop? && s.locals[t.p].i < |s.locals[t.p].src| &&
    Full(s.mon.data) && s.mon.data.readopen && s.killed[t.p] && DozingReader(s)
  }

  /** p->lock is free and a reader sleeps, or will without another look, beside data or a closed write end. */
  predicate Stuck(s: Sys) {
    s.mon.lk.None? && DozingReader(s) && (!Empty(s.mon.data) || !s.mon.data.writeopen)
  }

  lemma StepDisciplined(chans: set<nat>, s: Sys, t: Step)
    requires Ok(chans, s) && Enabled(s, t) && (NREAD in chans ==> !Strands(s, t))
    ensures Disciplined(PipeRules(chans), s.mon, Performs(s, t))
  {
    if t.Go? {
      assert s.mon.lk == Some(t.p);
      if s.locals[t.p].WTop? && s.locals[t.p].i < |s.locals[t.p].src| && Full(s.mon.data) {
        assert s.mon.owed <= {NREAD};
        if !s.mon.data.readopen {
          assert forall p :: 0 <= p < |s.locals| ==> !s.locals[p].RTop? && !Dozing(s.mon.pcs[p], NREAD);
        }
      }
    }
  }

  lemma KernelOk(s: Sys, mon: State<PipeData>, killed: seq<bool>)
    requires LocksOk(s.mon) && Places(s) && Framed(s.mon, mon) && LocksOk(mon) && |killed| == |s.killed|
    ensures Places(s.(mon := mon, killed := killed))
  {
    forall p | 0 <= p < |s.locals|
      ensures Matches(s.locals[p], mon.pcs[p])
    {
      KeepsMatches(s.locals[p], s.mon.pcs[p], mon.pcs[p]);
    }
  }

  lemma KeepsMatches(l: Local, pc: Pc, pc': Pc)
    requires Matches(l, pc) && Keeps(pc, pc')
    ensures Matches(l, pc')
  {
  }

  lemma StartOk(chans: set<nat>, s: Sys, t: Step)
    requires LocksOk(s.mon) && Places(s) && Enabled(s, t) && !t.Go? && !t.Kernel?
    ensures Places(After(chans, s, t))
  {}

  lemma GoWrite(chans: set<nat>, s: Sys, p: nat)
    requires chans <= {NREAD, NWRITE} && LocksOk(s.mon) && Places(s) && Enabled(s, Go(p)) && s.mon.lk == Some(p)
    requires Writing(s.locals[p])
    ensures Places(After(chans, s, Go(p)))
  {
    var s' := After(chans, s, Go(p));
    assert s'.mon.lk.Some? ==> s'.mon.owed <= CanOwe(s'.locals[p], s'.mon.pcs[p]);
  }

  lemma GoRead(chans: set<nat>, s: Sys, p: nat)
    requires chans <= {NREAD, NWRITE} && LocksOk(s.mon) && Places(s) && Enabled(s, Go(p)) && s.mon.lk == Some(p)
    requires Reading(s.locals[p])
    ensures Places(After(chans, s, Go(p)))
  {
    var s' := After(chans, s, Go(p));
    assert s'.mon.lk.Some? ==> s'.mon.owed <= CanOwe(s'.locals[p], s'.mon.pcs[p]);
  }

  lemma GoClose(chans: set<nat>, s: Sys, p: nat)
    requires chans <= {NREAD, NWRITE} && LocksOk(s.mon) && Places(s) && Enabled(s, Go(p)) && s.mon.lk == Some(p)
    requires s.locals[p].CTop? || s.locals[p].CWake? || s.locals[p].CDone?
    ensures Places(After(chans, s, Go(p)))
  {
    var s' := After(chans, s, Go(p));
    assert s'.mon.lk.Some? ==> s'.mon.owed <= CanOwe(s'.locals[p], s'.mon.pcs[p]);
  }

  lemma StepOk(chans: set<nat>, s: Sys, t: Step)
    requires Ok(chans, s) && Enabled(s, t) && (NREAD in chans ==> !Strands(s, t))
    ensures Ok(chans, After(chans, s, t))
  {
    StepDisciplined(chans, s, t);
    StepInv(PipeRules(chans), s.mon, Performs(s, t));
    if t.Kernel? {
      InternalFrame(PipeRules(chans), s.mon, t.e);
      KernelOk(s, Next(PipeRules(chans), s.mon, t.e), After(chans, s, t).killed);
    } else if t.Go? {
      if Writing(s.locals[t.p]) {
        GoWrite(chans, s, t.p);
      } else if Reading(s.locals[t.p]) {
        GoRead(chans, s, t.p);
      } else {
        GoClose(chans, s, t.p);
      }
    } else {
      StartOk(chans, s, t);
    }
  }

  // ---------- every run ----------

  /** No step of the run is a killed writer's exit past a sleeping reader. */
  ghost predicate StrandFree(chans: set<nat>, n: nat, ts: seq<Step>)
    requires Run(chans, n, ts).Some?
  {
    ts == [] || (!Strands(Run(chans, n, ts[..|ts| - 1]).value, ts[|ts| - 1]) && StrandFree(chans, n, ts[..|ts| - 1]))
  }

  lemma {:induction false} RunOk(chans: set<nat>, n: nat, ts: seq<Step>)
    requires chans <= {NREAD, NWRITE} && Run(chans, n, ts).Some?
    requires NREAD in chans ==> StrandFree(chans, n, ts)
    ensures Ok(chans, Run(chans, n, ts).value)
  {
    if ts != [] {
      var k := |ts| - 1;
      RunOk(chans, n, ts[..k]);
      var s := Run(chans, n, ts[..k]).value;
      StepOk(chans, s, ts[k]);
    }
  }

  /** The bookkeeping of owed wakeups does not affect what processes do. */
  lemma {:induction false} SameRun(chans: set<nat>, chans': set<nat>, n: nat, ts: seq<Step>)
    requires Run(chans, n, ts).Some?
    ensures Run(chans', n, ts).Some?
    ensures var (s, s') := (Run(chans, n, ts).value, Run(chans', n, ts).value);
            s' == s.(mon := s.mon.(owed := s'.mon.owed))
  {
    if ts != [] {
      var k := |ts| - 1;
      SameRun(chans, chans', n, ts[..k]);
      SameStep(chans, chans', Run(chans, n, ts[..k]).value, Run(chans', n, ts[..k]).value.mon.owed, ts[k]);
    }
  }

  lemma SameStep(chans: set<nat>, chans': set<nat>, s: Sys, owed: set<nat>, t: Step)
    requires Enabled(s, t)
    ensures var s1 := s.(mon := s.mon.(owed := owed));
            && Enabled(s1, t)
            && var (u, u1) := (After(chans, s, t), After(chans', s1, t)); u1 == u.(mon := u.mon.(owed := u1.mon.owed))
  {
    var s1 := s.(mon := s.mon.(owed := owed));
    SameNext(PipeRules(chans), PipeRules(chans'), s.mon, owed, Performs(s, t));
    assert Performs(s1, t) == Performs(s, t);
  }

  lemma SameNext<D>(r: Rules<D>, r': Rules<D>, s: State<D>, owed: set<nat>, e: Label<D>)
    requires Ready(s, e)
    ensures var s1 := s.(owed := owed);
            && Ready(s1, e)
            && var (u, u1) := (Next(r, s, e), Next(r', s1, e)); u1 == u.(owed := u1.owed)
  {}

  /** In every run, whoever is killed: with p->lock free no writer sleeps on a pipe with room or no reader end. */
  lemma WritersWoken(chans: set<nat>, n: nat, ts: seq<Step>, p: nat)
    requires Run(chans, n, ts).Some?
    ensures var s := Run(chans, n, ts).value;
            s.mon.lk.None? && p < |s.mon.pcs| && s.mon.pcs[p] == Asleep(NWRITE, false) ==>
              Full(s.mon.data) && s.mon.data.readopen
  {
    SameRun(chans, {NWRITE}, n, ts);
    RunOk({NWRITE}, n, ts);
    var s := Run({NWRITE}, n, ts).value;
    if s.mon.lk.None? && p < |s.mon.pcs| && Go?(NWRITE, s.mon.data) {
      NoLostWakeup(PipeRules({NWRITE}), s.mon, p, NWRITE);
    }
  }

  /** In every run without such an exit: with p->lock free no reader sleeps on data, or on a closed write end. */
  lemma ReadersWoken(n: nat, ts: seq<Step>, p: nat)
    requires Run({NREAD, NWRITE}, n, ts).Some? && StrandFree({NREAD, NWRITE}, n, ts)
    ensures var s := Run({NREAD, NWRITE}, n, ts).value;
            s.mon.lk.None? && p < |s.mon.pcs| && s.mon.pcs[p] == Asleep(NREAD, false) ==>
              Empty(s.mon.data) && s.mon.data.writeopen
  {
    RunOk({NREAD, NWRITE}, n, ts);
    var s := Run({NREAD, NWRITE}, n, ts).value;
    if s.mon.lk.None? && p < |s.mon.pcs| && Go?(NREAD, s.mon.data) {
      NoLostWakeup(PipeRules({NREAD, NWRITE}), s.mon, p, NREAD);
    }
  }

  predicate KillFree(ts: seq<Step>) {
    forall k :: 0 <= k < |ts| ==> !(ts[k].Kernel? && ts[k].e.Kill?)
  }

  lemma {:induction false} NobodyKilled(n: nat, ts: seq<Step>)
    requires Run({NREAD, NWRITE}, n, ts).Some? && KillFree(ts)
    ensures StrandFree({NREAD, NWRITE}, n, ts)
    ensures forall p :: 0 <= p < |Run({NREAD, NWRITE}, n, ts).value.killed| ==>
            !Run({NREAD, NWRITE}, n, ts).value.killed[p]
  {
    if ts != [] {
      NobodyKilled(n, ts[..|ts| - 1]);
    }
  }

  /** In every run in which nobody is killed, no reader sleeps on data or on a closed write end. */
  lemma ReadersWokenUnlessKilled(n: nat, ts: seq<Step>, p: nat)
    requires Run({NREAD, NWRITE}, n, ts).Some? && KillFree(ts)
    ensures var s := Run({NREAD, NWRITE}, n, ts).value;
            s.mon.lk.None? && p < |s.mon.pcs| && s.mon.pcs[p] == Asleep(NREAD, false) ==>
              Empty(s.mon.data) && s.mon.data.writeopen
  {
    NobodyKilled(n, ts);
    ReadersWoken(n, ts, p);
  }

  /** Such an exit leaves the reader beside a full pipe with nobody left to wake it. */
  lemma StrandsStick(n: nat, ts: seq<Step>, t: Step)
    requires Run(BOTH, n, ts).Some? && Enabled(Run(BOTH, n, ts).value, t) && Strands(Run(BOTH, n, ts).value, t)
    ensures Stuck(After(BOTH, Run(BOTH, n, ts).value, t))
  {
    PipeFifo(BOTH, n, ts);
    var s := Run(BOTH, n, ts).value;
    Occupancy(s.mon.data, s.stored, s.delivered);
    var s' := After(BOTH, s, t);
    var q :| 0 <= q < |s.mon.pcs| && Dozing(s.mon.pcs[q], NREAD);
    assert q != t.p && Dozing(s'.mon.pcs[q], NREAD);
  }

  lemma NeverStuck(n: nat, ts: seq<Step>)
    requires Run(BOTH, n, ts).Some? && StrandFree(BOTH, n, ts)
    ensures !Stuck(Run(BOTH, n, ts).value)
  {
    RunOk(BOTH, n, ts);
    OkNotStuck(Run(BOTH, n, ts).value);
  }

  lemma OkNotStuck(s: Sys)
    requires Ok(BOTH, s)
    ensures !Stuck(s)
  {
  }

  lemma StuckBefore(n: nat, ts: seq<Step>, m: nat, k: nat)
    requires k <= m <= |ts|
    ensures StuckAt(n, ts[..m], k) == StuckAt(n, ts, k)
  {
    assert ts[..m][..k] == ts[..k];
  }

  predicate StuckAt(n: nat, ts: seq<Step>, k: nat) {
    k <= |ts| && Run(BOTH, n, ts[..k]).Some? && Stuck(Run(BOTH, n, ts[..k]).value)
  }

  /** A run comes to a state with a stuck reader if and only if one of its steps is such an exit. */
  lemma StrandsExactly(n: nat, ts: seq<Step>)
    requires Run(BOTH, n, ts).Some?
    ensures (exists k :: StuckAt(n, ts, k)) <==> !StrandFree(BOTH, n, ts)
  {
    if StrandFree(BOTH, n, ts) {
      forall k: nat | k <= |ts|
        ensures !StuckAt(n, ts, k)
      {
        FreeBefore(n, ts, k);
        NeverStuck(n, ts[..k]);
      }
    } else {
      var k := SomeStuck(n, ts);
    }
  }

  lemma {:induction false} FreeBefore(n: nat, ts: seq<Step>, k: nat)
    requires Run(BOTH, n, ts).Some? && StrandFree(BOTH, n, ts) && k <= |ts|
    ensures Run(BOTH, n, ts[..k]).Some? && StrandFree(BOTH, n, ts[..k])
  {
    if k < |ts| {
      var us := ts[..|ts| - 1];
      FreeBefore(n, us, k);
      assert us[..k] == ts[..k];
    } else {
      assert ts[..k] == ts;
    }
  }

  lemma {:induction false} SomeStuck(n: nat, ts: seq<Step>) returns (k: nat)
    requires Run(BOTH, n, ts).Some? && !StrandFree(BOTH, n, ts)
    ensures StuckAt(n, ts, k)
  {
    var us := ts[..|ts| - 1];
    if StrandFree(BOTH, n, us) {
      StrandsStick(n, us, ts[|ts| - 1]);
      k := |ts|;
      assert ts[..k] == ts;
    } else {
      k := SomeStuck(n, us);
      StuckBefore(n, ts, |ts| - 1, k);
    }
  }

  // ---------- a run that strands a reader ----------

  lemma Snoc(n: nat, ts: seq<Step>, t: Step)
    requires Run(BOTH, n, ts).Some? && Enabled(Run(BOTH, n, ts).value, t)
    ensures Run(BOTH, n, ts + [t]) == Some(After(BOTH, Run(BOTH, n, ts).value, t))
  {
    assert (ts + [t])[..|ts|] == ts;
  }

  /** Process 0 reads and falls asleep on the empty pipe; process 1 starts to write. */
  predicate ReaderAsleep(s: Sys, src: seq<Byte>, k: nat) {
    |s.locals| == |s.killed| == |s.mon.pcs| == |s.past.ids| == 2 && s.mon.pcs == [Asleep(NREAD, false), Inside] &&
    s.mon.lk == Some(1) && s.mon.ptable.None? && s.locals[1] == WTop(src, k) &&
    s.mon.data.readopen && |s.stored| == k && s.delivered == []
  }

  /** Process 0 is on its way to sleep on the empty pipe; process 1 has not called anything. */
  predicate ReaderDozes(s: Sys) {
    && s.mon.pcs == [EnterSleep(NREAD), Outside] && s.mon.lk == Some(0) && s.mon.ptable.None?
    && |s.locals| == |s.killed| == |s.past.ids| == 2 && s.locals[1].Idle? && s.mon.data.readopen && s.mon.data.writeopen
    && s.stored == [] && s.delivered == []
  }

  lemma StartsToRead() returns (s1: Sys, s2: Sys)
    ensures Enabled(Init(2), StartRead(0, 1)) && s1 == After(BOTH, Init(2), StartRead(0, 1))
    ensures Enabled(s1, Go(0)) && s2 == After(BOTH, s1, Go(0)) && ReaderDozes(s2)
  {
    s1 := After(BOTH, Init(2), StartRead(0, 1));
    assert s1.mon.pcs == [Inside, Outside];
    s2 := After(BOTH, s1, Go(0));
  }

  lemma FallsAsleep(s2: Sys, src: seq<Byte>) returns (s3: Sys, s4: Sys, s5: Sys)
    requires ReaderDozes(s2)
    ensures Enabled(s2, Kernel(LockTable(0))) && s3 == After(BOTH, s2, Kernel(LockTable(0)))
    ensures Enabled(s3, Kernel(DropLock(0))) && s4 == After(BOTH, s3, Kernel(DropLock(0)))
    ensures Enabled(s4, Kernel(Suspend(0))) && s5 == After(BOTH, s4, Kernel(Suspend(0)))
    ensures Enabled(s5, StartWrite(1, src)) && ReaderAsleep(After(BOTH, s5, StartWrite(1, src)), src, 0)
  {
    s3 := After(BOTH, s2, Kernel(LockTable(0)));
    s4 := After(BOTH, s3, Kernel(DropLock(0)));
    s5 := After(BOTH, s4, Kernel(Suspend(0)));
    assert s5.mon.pcs == [Asleep(NREAD, false), Outside];
  }

  lemma Extend(ts: seq<Step>, s: Sys, t: Step) returns (us: seq<Step>)
    requires Run(BOTH, 2, ts) == Some(s) && Enabled(s, t)
    ensures Run(BOTH, 2, us) == Some(After(BOTH, s, t))
  {
    Snoc(2, ts, t);
    us := ts + [t];
  }

  lemma Prelude(src: seq<Byte>) returns (ts: seq<Step>)
    ensures Run(BOTH, 2, ts).Some? && ReaderAsleep(Run(BOTH, 2, ts).value, src, 0)
  {
    var s1, s2 := StartsToRead();
    var s3, s4, s5 := FallsAsleep(s2, src);
    ts := Extend([], Init(2), StartRead(0, 1));
    ts := Extend(ts, s1, Go(0));
    ts := Extend(ts, s2, Kernel(LockTable(0)));
    ts := Extend(ts, s3, Kernel(DropLock(0)));
    ts := Extend(ts, s4, Kernel(Suspend(0)));
    ts := Extend(ts, s5, StartWrite(1, src));
  }

  lemma {:induction false} FillUp(src: seq<Byte>, k: nat) returns (ts: seq<Step>)
    requires k <= PIPESIZE < |src|
    ensures Run(BOTH, 2, ts).Some? && ReaderAsleep(Run(BOTH, 2, ts).value, src, k)
  {
    if k == 0 {
      ts := Prelude(src);
    } else {
      ts := FillUp(src, k - 1);
      var s := Run(BOTH, 2, ts).value;
      PipeFifo(BOTH, 2, ts);
      Occupancy(s.mon.data, s.stored, s.delivered);
      Snoc(2, ts, Go(1));
      ts := ts + [Go(1)];
    }
  }

  /** The reader sleeps on a full pipe with p->lock free: nobody is left to wake it. */
  lemma ReaderCanBeStranded(src: seq<Byte>) returns (ts: seq<Step>)
    requires |src| > PIPESIZE
    ensures Run(BOTH, 2, ts).Some?
    ensures var s := Run(BOTH, 2, ts).value;
            |s.mon.pcs| == 2 && s.mon.lk.None? && s.mon.pcs[0] == Asleep(NREAD, false) && Full(s.mon.data) &&
              s.locals[1].Idle?
  {
    ts := FillUp(src, PIPESIZE);
    var s := Run(BOTH, 2, ts).value;
    PipeFifo(BOTH, 2, ts);
    Occupancy(s.mon.data, s.stored, s.delivered);
    Snoc(2, ts, Kernel(Kill(1)));
    ts := ts + [Kernel(Kill(1))];
    Snoc(2, ts, Go(1));
    ts := ts + [Go(1)];
  }
}
