/** acquiresleep and releasesleep of sleeplock.c by any number of processes. */
module SleepLock {
  import opened Wrappers
  import opened Monitor

  const CHAN: nat := 0 // sleep(lk, ...) and wakeup(lk)

  datatype LockData = LockData(locked: bool, pid: nat)

  const rules: Rules<LockData> := Rules({CHAN}, (c, d: LockData) => !d.locked)

  /** Where a process is in acquiresleep or releasesleep. */
  datatype Local =
    | Idle
    | Trying    // acquiresleep, up to the end of the while loop
    | Got       // locked = 1; pid = ...
    | Owner     // returned from acquiresleep
    | Releasing // releasesleep has taken lk->lk
    | Cleared   // locked = 0; pid = 0
    | Waking    // wakeup(lk)

  datatype Sys = Sys(mon: State<LockData>, locals: seq<Local>)

  datatype Step =
    | Enter(p: nat)     // acquire(&lk->lk) in acquiresleep
    | Test(p: nat)      // while (lk->locked) sleep(...), or fall through and take it
    | Leave(p: nat)     // release(&lk->lk), return
    | Begin(p: nat)     // acquire(&lk->lk) in releasesleep
    | Clear(p: nat)
    | Wake(p: nat)
    | Finish(p: nat)    // release(&lk->lk), return
    | Kernel(e: Label<LockData>) // the insides of sleep and wakeup, and kill

  predicate At(s: Sys, p: nat, l: Local) {
    p < |s.locals| && s.locals[p] == l
  }

  /** The monitor step that a program step performs. */
  function Performs(s: Sys, t: Step): Label<LockData> {
    match t
    case Enter(p) => Acquire(p)
    case Test(p) => if s.mon.data.locked then Sleep(p, CHAN) else Act(p, LockData(true, p))
    case Leave(p) => Release(p)
    case Begin(p) => Acquire(p)
    case Clear(p) => Act(p, LockData(false, 0))
    case Wake(p) => Wakeup(p, CHAN)
    case Finish(p) => Release(p)
    case Kernel(e) => e
  }

  predicate Enabled(s: Sys, t: Step) {
    Ready(s.mon, Performs(s, t)) &&
    match t
    case Enter(p) => At(s, p, Idle)
    case Test(p) => At(s, p, Trying)
    case Leave(p) => At(s, p, Got)
    case Begin(p) => At(s, p, Owner)
    case Clear(p) => At(s, p, Releasing)
    case Wake(p) => At(s, p, Cleared)
    case Finish(p) => At(s, p, Waking)
    case Kernel(e) => Internal(s.mon, e)
  }

  function After(s: Sys, t: Step): Sys
    requires Enabled(s, t)
  {
    var mon := Next(rules, s.mon, Performs(s, t));
    match t
    case Enter(p) => Sys(mon, s.locals[p := Trying])
    case Test(p) => Sys(mon, if s.mon.data.locked then s.locals else s.locals[p := Got])
    case Leave(p) => Sys(mon, s.locals[p := Owner])
    case Begin(p) => Sys(mon, s.locals[p := Releasing])
    case Clear(p) => Sys(mon, s.locals[p := Cleared])
    case Wake(p) => Sys(mon, s.locals[p := Waking])
    case Finish(p) => Sys(mon, s.locals[p := Idle])
    case Kernel(_) => s.(mon := mon)
  }

  // ---------- the invariant ----------

  predicate Matches(l: Local, pc: Pc) {
    match l
    case Idle => pc.Outside?
    case Owner => pc.Outside?
    case Trying => InSleep(pc)
    case Waking => InWakeup(pc, CHAN)
    case _ => pc.Inside?
  }

  predicate Owns(l: Local) {
    l.Got? || l.Owner? || l.Releasing?
  }

  /** The holder of lk->lk may owe a wakeup only between locked = 0 and the end of wakeup. */
  predicate MayOwe(l: Local, pc: Pc) {
    l.Cleared? || (l.Waking? && !pc.Inside?)
  }

  ghost predicate Ok(s: Sys) {
    Inv(rules, s.mon) && |s.locals| == |s.mon.pcs| && s.mon.owed <= {CHAN} &&
    (forall p :: 0 <= p < |s.locals| ==> Matches(s.locals[p], s.mon.pcs[p])) &&
    (forall p :: 0 <= p < |s.locals| ==> (Owns(s.locals[p]) <==> s.mon.data.locked && s.mon.data.pid == p)) &&
    (s.mon.data.locked ==> s.mon.data.pid < |s.locals|) &&
    (s.mon.lk.Some? && s.mon.owed != {} ==> MayOwe(s.locals[s.mon.lk.value], s.mon.pcs[s.mon.lk.value]))
  }

  function Init(n: nat): Sys {
    Sys(State(None, None, seq(n, i => Outside), LockData(false, 0), {}), seq(n, i => Idle))
  }

  lemma StepDisciplined(s: Sys, t: Step)
    requires Ok(s) && Enabled(s, t)
    ensures Disciplined(rules, s.mon, Performs(s, t))
  {}

  lemma StepOk(s: Sys, t: Step)
    requires Ok(s) && Enabled(s, t)
    ensures Ok(After(s, t))
  {
    StepDisciplined(s, t);
    StepInv(rules, s.mon, Performs(s, t));
    if t.Kernel? {
      InternalFrame(rules, s.mon, t.e);
      KernelOk(s, Next(rules, s.mon, t.e));
    }
  }

  lemma KernelOk(s: Sys, mon: State<LockData>)
    requires Ok(s) && Framed(s.mon, mon) && Inv(rules, mon)
    ensures Ok(Sys(mon, s.locals))
  {}

  // ---------- every run ----------

  function Run(n: nat, ts: seq<Step>): Option<Sys> {
    if ts == [] then Some(Init(n)) else
      match Run(n, ts[..|ts| - 1])
      case None => None
      case Some(s) => if Enabled(s, ts[|ts| - 1]) then Some(After(s, ts[|ts| - 1])) else None
  }

  lemma {:induction false} RunOk(n: nat, ts: seq<Step>)
    requires Run(n, ts).Some?
    ensures Ok(Run(n, ts).value) && |Run(n, ts).value.locals| == n
  {
    if ts != [] {
      var k := |ts| - 1;
      RunOk(n, ts[..k]);
      StepOk(Run(n, ts[..k]).value, ts[k]);
    }
  }

  /**
   At most one process owns the lock, and it is the one recorded in pid; and if the spinlock is free, a
   process asleep in acquiresleep means that the lock is held by a process that has returned from
   acquiresleep and has yet to release it.
   */
  ghost predicate Safe(s: Sys) {
    |s.mon.pcs| == |s.locals| &&
    (forall p :: 0 <= p < |s.locals| && Owns(s.locals[p]) ==> s.mon.data == LockData(true, p)) &&
    (s.mon.lk.None? ==>
       forall p :: 0 <= p < |s.locals| && s.mon.pcs[p] == Asleep(CHAN, false) ==>
         s.mon.data.locked && s.mon.data.pid < |s.locals| && s.locals[s.mon.data.pid].Owner?)
  }

  lemma SleepLockSafety(n: nat, ts: seq<Step>)
    requires Run(n, ts).Some?
    ensures Safe(Run(n, ts).value)
  {
    RunOk(n, ts);
    var s := Run(n, ts).value;
    forall p | 0 <= p < n && s.mon.lk.None? && s.mon.pcs[p] == Asleep(CHAN, false)
      ensures s.mon.data.locked
    {
      if !s.mon.data.locked {
        NoLostWakeup(rules, s.mon, p, CHAN);
      }
    }
  }
}
