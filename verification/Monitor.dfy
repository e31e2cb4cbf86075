/**
 sleep, wakeup and kill of proc.c as a protocol around one spinlock lk and ptable.lock. A process
 changes the guarded data only while it holds lk; `cond(c, data)` says nobody should be asleep on
 channel c. `owed` is ghost bookkeeping: the channels whose condition the holder of lk has made true
 and not yet passed to wakeup.
 */
module Monitor {
  import opened Wrappers

  datatype Rules<!D> = Rules(chans: set<nat>, cond: (nat, D) -> bool)

  datatype Pc =
    | Outside              // not using the monitor
    | Inside               // holds lk
    | EnterSleep(c: nat)   // in sleep: holds lk, wants ptable.lock
    | SwitchOff(c: nat)    // holds both, about to release lk
    | GoSleep(c: nat)      // holds ptable.lock only, about to set SLEEPING
    | Asleep(c: nat, woken: bool) // SLEEPING, or RUNNABLE once woken
    | Resume               // dispatched, holds ptable.lock
    | Reacquire            // wants lk back
    | EnterWake(c: nat)    // in wakeup: holds lk, wants ptable.lock
    | InWake(c: nat)       // holds both

  datatype State<D> = State(lk: Option<nat>, ptable: Option<nat>, pcs: seq<Pc>, data: D, owed: set<nat>)

  datatype Label<D> =
    | Acquire(p: nat)
    | Act(p: nat, data: D)
    | Sleep(p: nat, c: nat)
    | LockTable(p: nat)
    | DropLock(p: nat)
    | Suspend(p: nat)
    | Dispatch(p: nat)
    | Tidy(p: nat)
    | Wakeup(p: nat, c: nat)
    | WakeLock(p: nat)
    | WakeAll(p: nat)
    | Release(p: nat)
    | Kill(p: nat)
    | Unlocked(data: D)

  predicate HoldsLock(pc: Pc) {
    pc.Inside? || pc.EnterSleep? || pc.SwitchOff? || pc.EnterWake? || pc.InWake?
  }

  predicate HoldsTable(pc: Pc) {
    pc.SwitchOff? || pc.GoSleep? || pc.Resume? || pc.InWake?
  }

  /** The channel of a process asleep, or committed to sleeping without another look at the condition. */
  function DozesOn(pc: Pc): Option<nat> {
    match pc
    case EnterSleep(c) => Some(c)
    case SwitchOff(c) => Some(c)
    case GoSleep(c) => Some(c)
    case Asleep(c, woken) => if woken then None else Some(c)
    case _ => None
  }

  predicate Dozing(pc: Pc, c: nat) {
    DozesOn(pc) == Some(c)
  }

  predicate NoDozer(pcs: seq<Pc>, cs: set<nat>) {
    forall p, c :: 0 <= p < |pcs| && c in cs ==> !Dozing(pcs[p], c)
  }

  /** What the locks and the scheduler allow. */
  predicate Ready<D>(s: State<D>, e: Label<D>) {
    match e
    case Acquire(p) => p < |s.pcs| && (s.pcs[p].Outside? || s.pcs[p].Reacquire?) && s.lk.None?
    case Act(p, _) => p < |s.pcs| && s.pcs[p].Inside?
    case Sleep(p, c) => p < |s.pcs| && s.pcs[p].Inside?
    case LockTable(p) => p < |s.pcs| && s.pcs[p].EnterSleep? && s.ptable.None?
    case DropLock(p) => p < |s.pcs| && s.pcs[p].SwitchOff?
    case Suspend(p) => p < |s.pcs| && s.pcs[p].GoSleep?
    case Dispatch(p) => p < |s.pcs| && s.pcs[p].Asleep? && s.pcs[p].woken && s.ptable.None?
    case Tidy(p) => p < |s.pcs| && s.pcs[p].Resume?
    case Wakeup(p, c) => p < |s.pcs| && s.pcs[p].Inside?
    case WakeLock(p) => p < |s.pcs| && s.pcs[p].EnterWake? && s.ptable.None?
    case WakeAll(p) => p < |s.pcs| && s.pcs[p].InWake?
    case Release(p) => p < |s.pcs| && s.pcs[p].Inside?
    case Kill(p) => p < |s.pcs| && s.ptable.None?
    case Unlocked(_) => true
  }

  /**
   What the code around the monitor owes it: sleep only on a condition that fails; give up lk only when
   every condition made true has been passed to wakeup or has nobody dozing on it; change data without lk
   only in ways that make no condition true.
   */
  predicate Disciplined<D>(r: Rules<D>, s: State<D>, e: Label<D>) {
    match e
    case Sleep(_, c) => !r.cond(c, s.data) && NoDozer(s.pcs, s.owed)
    case Release(_) => NoDozer(s.pcs, s.owed)
    case Unlocked(d) => forall c :: c in r.chans && r.cond(c, d) ==> r.cond(c, s.data)
    case _ => true
  }

  function Go<D>(s: State<D>, p: nat, pc: Pc): State<D>
    requires p < |s.pcs|
  {
    s.(pcs := s.pcs[p := pc])
  }

  /** wakeup1: every process SLEEPING on the channel becomes RUNNABLE. */
  function Rouse(pcs: seq<Pc>, c: nat): (r: seq<Pc>)
    ensures |r| == |pcs|
    ensures forall p :: 0 <= p < |pcs| ==> r[p] == if pcs[p] == Asleep(c, false) then Asleep(c, true) else pcs[p]
  {
    if pcs == [] then [] else [if pcs[0] == Asleep(c, false) then Asleep(c, true) else pcs[0]] + Rouse(pcs[1..], c)
  }

  function Next<D>(r: Rules<D>, s: State<D>, e: Label<D>): State<D>
    requires Ready(s, e)
  {
    match e
    case Acquire(p) => Go(s, p, Inside).(lk := Some(p))
    case Act(p, d) => s.(data := d, owed := s.owed + set c | c in r.chans && r.cond(c, d) && !r.cond(c, s.data))
    case Sleep(p, c) => Go(s, p, EnterSleep(c)).(owed := {})
    case LockTable(p) => Go(s, p, SwitchOff(s.pcs[p].c)).(ptable := Some(p))
    case DropLock(p) => Go(s, p, GoSleep(s.pcs[p].c)).(lk := None)
    case Suspend(p) => Go(s, p, Asleep(s.pcs[p].c, false)).(ptable := None)
    case Dispatch(p) => Go(s, p, Resume).(ptable := Some(p))
    case Tidy(p) => Go(s, p, Reacquire).(ptable := None)
    case Wakeup(p, c) => Go(s, p, EnterWake(c))
    case WakeLock(p) => Go(s, p, InWake(s.pcs[p].c)).(ptable := Some(p))
    case WakeAll(p) =>
      State(s.lk, None, Rouse(s.pcs, s.pcs[p].c)[p := Inside], s.data, s.owed - {s.pcs[p].c})
    case Release(p) => Go(s, p, Outside).(lk := None, owed := {})
    case Kill(p) => if s.pcs[p].Asleep? then Go(s, p, s.pcs[p].(woken := true)) else s
    case Unlocked(d) => s.(data := d)
  }

  // ---------- the invariant ----------

  predicate LocksOk<D>(s: State<D>) {
    (forall p :: 0 <= p < |s.pcs| ==>
       (HoldsLock(s.pcs[p]) <==> s.lk == Some(p)) && (HoldsTable(s.pcs[p]) <==> s.ptable == Some(p))) &&
    (match s.lk
     case None => s.owed == {}
     case Some(p) => p < |s.pcs| && (s.pcs[p].EnterSleep? || s.pcs[p].SwitchOff? ==> s.owed == {}))
  }

  /** Whoever dozes on a channel whose condition holds is about to be woken. */
  ghost predicate Covered<D>(r: Rules<D>, s: State<D>) {
    forall p, c :: 0 <= p < |s.pcs| && c in r.chans && Dozing(s.pcs[p], c) && r.cond(c, s.data) ==> c in s.owed
  }

  ghost predicate Inv<D>(r: Rules<D>, s: State<D>) {
    LocksOk(s) && Covered(r, s)
  }

  lemma LocksStep<D>(r: Rules<D>, s: State<D>, e: Label<D>)
    requires LocksOk(s) && Ready(s, e)
    ensures LocksOk(Next(r, s, e))
  {
    if e.WakeAll? {
      LocksWake(r, s, e.p);
    } else if e.Acquire? || e.DropLock? || e.Release? || e.Sleep? {
      LocksHand(r, s, e);
    }
  }

  lemma LocksWake<D>(r: Rules<D>, s: State<D>, p: nat)
    requires LocksOk(s) && Ready(s, WakeAll(p))
    ensures LocksOk(Next(r, s, WakeAll(p)))
  {
    assert forall q :: 0 <= q < |s.pcs| && q != p ==> !HoldsLock(s.pcs[q]) && !HoldsTable(s.pcs[q]);
  }

  /** The steps that take or give up lk, or are about to. */
  lemma LocksHand<D>(r: Rules<D>, s: State<D>, e: Label<D>)
    requires LocksOk(s) && Ready(s, e) && (e.Acquire? || e.DropLock? || e.Release? || e.Sleep?)
    ensures LocksOk(Next(r, s, e))
  {
  }

  lemma CoveredStep<D>(r: Rules<D>, s: State<D>, e: Label<D>)
    requires Inv(r, s) && Ready(s, e) && Disciplined(r, s, e)
    ensures Covered(r, Next(r, s, e))
  {
    if e.WakeAll? {
      CoveredWake(r, s, e.p);
    } else {
      var s' := Next(r, s, e);
      forall p, c | 0 <= p < |s'.pcs| && c in r.chans && Dozing(s'.pcs[p], c) && r.cond(c, s'.data)
        ensures c in s'.owed
      {
        if e.Act? {
          assert r.cond(c, s.data) ==> c in s.owed;
        } else {
          assert Dozing(s.pcs[p], c);
        }
      }
    }
  }

  lemma CoveredWake<D>(r: Rules<D>, s: State<D>, w: nat)
    requires Inv(r, s) && Ready(s, WakeAll(w))
    ensures Covered(r, Next(r, s, WakeAll(w)))
  {
    var s' := Next(r, s, WakeAll(w));
    forall p, c | 0 <= p < |s'.pcs| && c in r.chans && Dozing(s'.pcs[p], c) && r.cond(c, s'.data)
      ensures c in s'.owed
    {
      assert p != w && !HoldsLock(s.pcs[p]) && !HoldsTable(s.pcs[p]);
      assert c in s.owed;
    }
  }

  lemma StepInv<D>(r: Rules<D>, s: State<D>, e: Label<D>)
    requires Inv(r, s) && Ready(s, e) && Disciplined(r, s, e)
    ensures Inv(r, Next(r, s, e))
  {
    LocksStep(r, s, e);
    CoveredStep(r, s, e);
  }

  /** No lost wakeup: with lk free, nobody sleeps on a channel whose condition holds. */
  lemma NoLostWakeup<D>(r: Rules<D>, s: State<D>, p: nat, c: nat)
    requires Inv(r, s) && s.lk.None? && p < |s.pcs| && c in r.chans && r.cond(c, s.data)
    ensures s.pcs[p] != Asleep(c, false)
  {}

  /** The insides of sleep and wakeup, and kill. */
  predicate Internal<D>(s: State<D>, e: Label<D>) {
    e.LockTable? || e.DropLock? || e.Suspend? || e.Dispatch? || e.Tidy? || e.WakeLock? || e.WakeAll? || e.Kill? ||
    (e.Acquire? && e.p < |s.pcs| && s.pcs[e.p].Reacquire?)
  }

  /** In sleep, from the call until the lock is held again. */
  predicate InSleep(pc: Pc) {
    pc.Inside? || pc.EnterSleep? || pc.SwitchOff? || pc.GoSleep? || pc.Asleep? || pc.Resume? || pc.Reacquire?
  }

  /** In wakeup(c), or just back from it. */
  predicate InWakeup(pc: Pc, c: nat) {
    pc.Inside? || pc == EnterWake(c) || pc == InWake(c)
  }

  /** The data is left alone, and each process stays where it was in the surrounding code. */
  ghost predicate Framed<D>(s: State<D>, s': State<D>) {
    |s'.pcs| == |s.pcs| && s'.data == s.data && s'.owed <= s.owed &&
    (forall p :: 0 <= p < |s.pcs| ==> Keeps(s.pcs[p], s'.pcs[p])) &&
    (s.lk.Some? && s'.lk.Some? ==> s'.lk == s.lk) &&
    (forall p :: 0 <= p < |s.pcs| && !s.pcs[p].Inside? && s'.pcs[p].Inside? ==>
       s'.owed == if s.pcs[p].InWake? then s.owed - {s.pcs[p].c} else {})
  }

  lemma InternalFrame<D>(r: Rules<D>, s: State<D>, e: Label<D>)
    requires LocksOk(s) && Ready(s, e) && Internal(s, e)
    ensures Framed(s, Next(r, s, e))
  {
    if e.WakeAll? {
      WakeFrame(r, s, e.p);
    }
  }

  lemma WakeFrame<D>(r: Rules<D>, s: State<D>, p: nat)
    requires LocksOk(s) && Ready(s, WakeAll(p))
    ensures Framed(s, Next(r, s, WakeAll(p)))
  {
  }

  predicate Keeps(pc: Pc, pc': Pc) {
    || (InSleep(pc) && !pc.Inside? && InSleep(pc') && (DozesOn(pc').Some? ==> DozesOn(pc') == DozesOn(pc)))
    || (pc.EnterWake? && pc' == InWake(pc.c))
    || (pc.InWake? && pc'.Inside?)
    || pc == pc'
  }
}
