/**
 * The scheduler of CS_537_P4/proc.c. A pass collects the runnable processes of least priority value and
 * then runs them one after another, giving up the process-table lock while each runs. Any number of
 * processors; every step is one stretch under the lock.
 */
module Scheduler {
  import opened Wrappers

  const INT_MAX: int := 0x7FFF_FFFF

  datatype PState = Unused | Embryo | Sleeping | Runnable | Running | Zombie

  /** A slot of ptable; processes are slots, and init is slot 0. */
  datatype Proc = Proc(state: PState, pid: nat, parent: Option<nat>, ticks: int, priority: int, nice: int,
                       sleepTicks: int)

  type Table = seq<Proc>

  // ---------- choosing the batch ----------

  predicate Ready(t: Table, i: nat) {
    i < |t| && t[i].state == Runnable
  }

  /** Runnable, and nothing runnable comes before it in priority. */
  predicate Best(t: Table, i: nat) {
    Ready(t, i) && forall j :: 0 <= j < |t| && Ready(t, j) ==> t[i].priority <= t[j].priority
  }

  /** The runnable processes of priority hp among the first n, in table order. */
  function AtLevel(t: Table, n: nat, hp: int): seq<nat>
    requires n <= |t|
  {
    if n == 0 then [] else AtLevel(t, n - 1, hp) + if Ready(t, n - 1) && t[n - 1].priority == hp then [n - 1] else []
  }

  lemma {:induction false} AtLevelExact(t: Table, n: nat, hp: int)
    requires n <= |t|
    ensures forall i :: i in AtLevel(t, n, hp) <==> 0 <= i < n && Ready(t, i) && t[i].priority == hp
    ensures forall a, b :: 0 <= a < b < |AtLevel(t, n, hp)| ==> AtLevel(t, n, hp)[a] < AtLevel(t, n, hp)[b]
  {
    if n > 0 {
      AtLevelExact(t, n - 1, hp);
      var s := AtLevel(t, n - 1, hp);
      assert forall a :: 0 <= a < |s| ==> s[a] in s;
    }
  }

  /** What a pass runs: exactly the best processes, in table order. */
  predicate IsBatch(t: Table, batch: seq<nat>) {
    && (forall i <- batch :: Best(t, i))
    && (forall i :: 0 <= i < |t| && Best(t, i) ==> i in batch)
    && forall a, b :: 0 <= a < b < |batch| ==> batch[a] < batch[b]
  }

  lemma {:induction false} AtLevelNone(t: Table, n: nat, hp: int)
    requires n <= |t| && forall j :: 0 <= j < n && Ready(t, j) ==> hp < t[j].priority
    ensures AtLevel(t, n, hp) == []
  {
    if n > 0 {
      AtLevelNone(t, n - 1, hp);
    }
  }

  lemma LevelIsBatch(t: Table, hp: int)
    requires forall j :: 0 <= j < |t| ==> t[j].priority <= INT_MAX
    requires forall j :: 0 <= j < |t| && Ready(t, j) ==> hp <= t[j].priority
    requires AtLevel(t, |t|, hp) == [] ==> hp == INT_MAX
    ensures IsBatch(t, AtLevel(t, |t|, hp))
  {
    var batch := AtLevel(t, |t|, hp);
    AtLevelExact(t, |t|, hp);
    forall i | 0 <= i < |t| && Best(t, i)
      ensures i in batch
    {
      if batch != [] {
        assert batch[0] in batch && Ready(t, batch[0]);
      }
    }
  }

  method SelectBatch(t: Table) returns (batch: seq<nat>)
    requires forall i :: 0 <= i < |t| ==> t[i].priority <= INT_MAX
    ensures IsBatch(t, batch)
  {
    var highest := INT_MAX;
    batch := [];
    for n := 0 to |t|
      invariant batch == AtLevel(t, n, highest) && highest <= INT_MAX
      invariant forall j :: 0 <= j < n && Ready(t, j) ==> highest <= t[j].priority
      invariant batch == [] ==> highest == INT_MAX
    {
      if Ready(t, n) && t[n].priority < highest {
        highest := t[n].priority;
        AtLevelNone(t, n, highest);
        batch := [n];
      } else if Ready(t, n) && t[n].priority == highest {
        batch := batch + [n];
      }
    }
    LevelIsBatch(t, highest);
  }

  /** One batch per table. */
  lemma BatchUnique(t: Table, a: seq<nat>, b: seq<nat>)
    requires IsBatch(t, a) && IsBatch(t, b)
    ensures a == b
  {
    SameElements(a, b);
  }

  predicate Ascending(s: seq<nat>) {
    forall a, b :: 0 <= a < b < |s| ==> s[a] < s[b]
  }

  lemma HasFirst(s: seq<nat>)
    ensures s != [] ==> exists i :: i in s
  {
    if s != [] {
      assert s[0] in s;
    }
  }

  lemma {:induction false} SameElements(a: seq<nat>, b: seq<nat>)
    requires Ascending(a) && Ascending(b) && forall i :: i in a <==> i in b
    ensures a == b
    decreases |a|
  {
    if a == [] {
      HasFirst(b);
    } else {
      assert a[0] in b && b[0] in a;
      var k :| 0 <= k < |b| && b[k] == a[0];
      var j :| 0 <= j < |a| && a[j] == b[0];
      assert a[0] == b[0];
      forall i
        ensures i in a[1..] <==> i in b[1..]
      {
        assert i in a[1..] <==> i in a && i != a[0];
        assert i in b[1..] <==> i in b && i != b[0];
      }
      SameElements(a[1..], b[1..]);
      assert a == [a[0]] + a[1..] && b == [b[0]] + b[1..];
    }
  }

  // ---------- the process table ----------

  /** h is x / 2 as C divides. */
  predicate Half(x: int, h: int) {
    if x >= 0 then 2 * h <= x < 2 * h + 2 else 2 * h - 2 < x <= 2 * h
  }

  /** The halving every hundred ticks: what is left of use is halved, and counts a half again beside nice. */
  function Decay(t: Table): (r: Table)
    ensures |r| == |t| && forall i :: 0 <= i < |t| ==>
              && r[i] == t[i].(ticks := r[i].ticks, priority := r[i].priority)
              && Half(t[i].ticks, r[i].ticks) && Half(r[i].ticks, r[i].priority - t[i].nice)
  {
    seq(|t|, i requires 0 <= i < |t| => Decayed(t[i]))
  }

  /** x / 2 in C. */
  function Truncated(x: int): (h: int)
    ensures Half(x, h)
  {
    if x >= 0 then x / 2 else -(-x / 2)
  }

  function Decayed(p: Proc): Proc {
    var half := Truncated(p.ticks);
    p.(ticks := half, priority := Truncated(half) + p.nice)
  }

  /** wakeup1, which ignores its channel. */
  function Wake(p: Proc): Proc {
    if p.state == Sleeping && p.sleepTicks == 0 then p.(state := Runnable)
    else if p.state == Sleeping && p.sleepTicks > 0 then p.(sleepTicks := p.sleepTicks - 1)
    else p
  }

  /** w wakeups leave everyone as he was but the sleepers: k more have to come, and the one after wakes. */
  predicate Roused(p: Proc, w: nat, q: Proc) {
    if p.state != Sleeping || p.sleepTicks < 0 then q == p
    else if w <= p.sleepTicks then q == p.(sleepTicks := p.sleepTicks - w)
    else q == p.(sleepTicks := 0, state := Runnable)
  }

  predicate AllRoused(t: Table, w: nat, r: Table) {
    |r| == |t| && forall i :: 0 <= i < |t| ==> Roused(t[i], w, r[i])
  }

  function WakeAll(t: Table): (r: Table)
    ensures AllRoused(t, 1, r)
  {
    seq(|t|, i requires 0 <= i < |t| => Wake(t[i]))
  }

  /** Nobody who was not asleep changed state. */
  predicate Gentle(t: Table, r: Table) {
    |r| == |t| && forall i :: 0 <= i < |t| ==>
      r[i].state == t[i].state || (t[i].state == Sleeping && r[i].state == Runnable)
  }

  /** The children of me, from slot i on, given to init. */
  function Given(t: Table, me: nat, i: nat): (r: Table)
    ensures |r| == |t| && forall k :: 0 <= k < |t| ==>
              r[k] == t[k].(parent := if i <= k && t[k].parent == Some(me) then Some(0) else t[k].parent)
  {
    seq(|t|, k requires 0 <= k < |t| =>
      t[k].(parent := if i <= k && t[k].parent == Some(me) then Some(0) else t[k].parent))
  }

  /** How many children of me are zombies, from slot i on. */
  function ZombieKids(t: Table, me: nat, i: nat): nat
    requires i <= |t|
    decreases |t| - i
  {
    if i == |t| then 0
    else ZombieKids(t, me, i + 1) + if t[i].parent == Some(me) && t[i].state == Zombie then 1 else 0
  }

  /** exit passes its children to init from slot i on, and wakes init once per zombie. */
  function Orphan(t: Table, me: nat, i: nat): (r: Table)
    requires i <= |t|
    ensures Gentle(t, r)
    decreases |t| - i
  {
    if i == |t| then t
    else if t[i].parent == Some(me) then
      var u := t[i := t[i].(parent := Some(0))];
      Orphan(if t[i].state == Zombie then WakeAll(u) else u, me, i + 1)
    else Orphan(t, me, i + 1)
  }

  // ---------- the scans of the table ----------

  predicate FirstUnused(t: Table, k: nat) {
    k < |t| && t[k].state == Unused && forall j :: 0 <= j < k ==> t[j].state != Unused
  }

  /** allocproc's scan. */
  method FindUnused(t: Table) returns (k: Option<nat>)
    ensures k.Some? ==> FirstUnused(t, k.value)
    ensures k.None? ==> forall j :: 0 <= j < |t| ==> t[j].state != Unused
  {
    for i := 0 to |t|
      invariant forall j :: 0 <= j < i ==> t[j].state != Unused
    {
      if t[i].state == Unused {
        return Some(i);
      }
    }
    k := None;
  }

  predicate FirstZombie(t: Table, me: nat, k: nat) {
    && k < |t| && t[k].parent == Some(me) && t[k].state == Zombie
    && forall j :: 0 <= j < k ==> t[j].parent != Some(me) || t[j].state != Zombie
  }

  /** wait's scan: a zombie child, and whether there are children at all. */
  method WaitScan(t: Table, me: nat) returns (child: Option<nat>, kids: bool)
    ensures child.Some? ==> FirstZombie(t, me, child.value)
    ensures child.None? ==> forall j :: 0 <= j < |t| ==> t[j].parent != Some(me) || t[j].state != Zombie
    ensures child.None? ==> (kids <==> exists j :: 0 <= j < |t| && t[j].parent == Some(me))
  {
    kids := false;
    for i := 0 to |t|
      invariant forall j :: 0 <= j < i ==> t[j].parent != Some(me) || t[j].state != Zombie
      invariant kids <==> exists j :: 0 <= j < i && t[j].parent == Some(me)
    {
      if t[i].parent == Some(me) {
        kids := true;
        if t[i].state == Zombie {
          return Some(i), kids;
        }
      }
    }
    child := None;
  }

  predicate FirstPid(t: Table, pid: nat, k: nat) {
    k < |t| && t[k].pid == pid && forall j :: 0 <= j < k ==> t[j].pid != pid
  }

  /** The slot that kill(pid) finds, from slot i on. */
  function PidSlot(t: Table, pid: nat, i: nat): (k: Option<nat>)
    requires i <= |t| && forall j :: 0 <= j < i ==> t[j].pid != pid
    ensures k.Some? ==> FirstPid(t, pid, k.value)
    ensures k.None? ==> forall j :: 0 <= j < |t| ==> t[j].pid != pid
    decreases |t| - i
  {
    if i == |t| then None else if t[i].pid == pid then Some(i) else PidSlot(t, pid, i + 1)
  }

  /** The table after kill(pid): a sleeper with that pid is runnable, and nothing else changed. */
  function Killed(t: Table, pid: nat): (r: Table)
    ensures |r| == |t| && forall k :: 0 <= k < |t| ==>
              r[k] == if FirstPid(t, pid, k) && t[k].state == Sleeping then t[k].(state := Runnable) else t[k]
  {
    match PidSlot(t, pid, 0)
    case None => t
    case Some(k) => if t[k].state == Sleeping then t[k := t[k].(state := Runnable)] else t
  }

  /** kill's scan; the answer is whether there is such a process. */
  method KillScan(t: Table, pid: nat) returns (r: Table, found: bool)
    ensures r == Killed(t, pid) && (found <==> exists k :: 0 <= k < |t| && t[k].pid == pid)
  {
    r := t;
    for i := 0 to |t|
      invariant r == t && forall j :: 0 <= j < i ==> t[j].pid != pid
    {
      if t[i].pid == pid {
        if t[i].state == Sleeping {
          r := t[i := t[i].(state := Runnable)];
        }
        assert FirstPid(t, pid, i);
        return r, true;
      }
    }
    found := false;
  }

  /** The decaying loop at the start of a pass. */
  method DecayScan(t: Table) returns (r: Table)
    ensures r == Decay(t)
  {
    r := t;
    for i := 0 to |t|
      invariant |r| == |t| && forall j :: 0 <= j < |t| ==> r[j] == if j < i then Decay(t)[j] else t[j]
    {
      r := r[i := r[i].(ticks := Truncated(r[i].ticks))];
      r := r[i := r[i].(priority := Truncated(r[i].ticks) + r[i].nice)];
      HalfUnique(t[i].ticks, r[i].ticks, Decay(t)[i].ticks);
      HalfUnique(r[i].ticks, r[i].priority - t[i].nice, Decay(t)[i].priority - t[i].nice);
    }
  }

  lemma HalfUnique(x: int, h: int, k: int)
    requires Half(x, h) && Half(x, k)
    ensures h == k
  {
  }

  // ---------- the machine ----------

  /** A processor's scheduler: the batch of its pass, how far it got, and the process it runs. */
  datatype Cpu = Cpu(batch: seq<nat>, next: nat, running: Option<nat>)

  /** making[p] is the slot that the fork of process p is filling. */
  datatype Sys = Sys(table: Table, cpus: seq<Cpu>, making: seq<Option<nat>>, nextpid: nat)

  datatype Way = Yield | Sleep | Exit

  datatype Step =
    | Pass(c: nat, batch: seq<nat>, decay: bool)
    | Leave(c: nat, way: Way)
    | Wakeup
    | Kill(c: nat, pid: nat)
    | Alloc(c: nat, slot: nat)
    | ForkDone(c: nat)
    | ForkFail(c: nat)
    | Reap(c: nat, child: nat)
    | SetSleep(c: nat, n: int)
    | Nice(c: nat, n: int)

  predicate Runs(s: Sys, c: nat) {
    c < |s.cpus| && s.cpus[c].running.Some? && s.cpus[c].running.value < |s.table|
  }

  function Me(s: Sys, c: nat): nat
    requires Runs(s, c)
  {
    s.cpus[c].running.value
  }

  predicate Enabled(s: Sys, e: Step) {
    |s.making| == |s.table| &&
    match e
    case Pass(c, batch, decay) =>
      c < |s.cpus| && s.cpus[c].running.None? && s.cpus[c].next == |s.cpus[c].batch|
      && IsBatch(if decay then Decay(s.table) else s.table, batch)
    case Leave(c, way) => Runs(s, c) && (way.Exit? ==> s.making[Me(s, c)].None? && Me(s, c) != 0)
    case Wakeup => true
    case Kill(c, pid) => Runs(s, c)
    case Alloc(c, slot) => Runs(s, c) && s.making[Me(s, c)].None? && FirstUnused(s.table, slot)
    case ForkDone(c) => Runs(s, c) && s.making[Me(s, c)].Some? && s.making[Me(s, c)].value < |s.table|
    case ForkFail(c) => Runs(s, c) && s.making[Me(s, c)].Some? && s.making[Me(s, c)].value < |s.table|
    case Reap(c, child) => Runs(s, c) && FirstZombie(s.table, Me(s, c), child)
    case SetSleep(c, n) => Runs(s, c)
    case Nice(c, n) => Runs(s, c)
  }

  /** The table as the step's dispatch, if any, finds it. */
  function Before(s: Sys, e: Step): (t: Table)
    requires Enabled(s, e)
    ensures |t| == |s.table|
  {
    match e
    case Pass(c, batch, decay) => if decay then Decay(s.table) else s.table
    case Leave(c, way) => (
      var p := Me(s, c);
      match way
      case Yield => s.table[p := s.table[p].(state := Runnable)]
      case Sleep => s.table[p := s.table[p].(state := Sleeping)]
      case Exit => var t := Orphan(WakeAll(s.table), p, 0); t[p := t[p].(state := Zombie)])
    case Wakeup => WakeAll(s.table)
    case Kill(c, pid) => Killed(s.table, pid)
    case Alloc(c, slot) => s.table[slot := s.table[slot].(state := Embryo, pid := s.nextpid)]
    case ForkDone(c) =>
      var k := s.making[Me(s, c)].value;
      s.table[k := s.table[k].(state := Runnable, parent := Some(Me(s, c)))]
    case ForkFail(c) => var k := s.making[Me(s, c)].value; s.table[k := s.table[k].(state := Unused)]
    case Reap(c, child) => s.table[child := s.table[child].(state := Unused, pid := 0, parent := None)]
    case SetSleep(c, n) => s.table[Me(s, c) := s.table[Me(s, c)].(sleepTicks := n)]
    case Nice(c, n) => if 0 <= n <= 20 then s.table[Me(s, c) := s.table[Me(s, c)].(nice := n)] else s.table
  }

  /** The processor's scheduler once the step has returned to it. */
  function Turn(s: Sys, e: Step): Cpu
    requires Enabled(s, e) && (e.Pass? || e.Leave?)
  {
    if e.Pass? then Cpu(e.batch, 0, None) else s.cpus[e.c].(running := None)
  }

  /** The process the step gives the processor to, whatever its state. */
  function Dispatched(s: Sys, e: Step): Option<nat>
    requires Enabled(s, e)
  {
    if (e.Pass? || e.Leave?) && Turn(s, e).next < |Turn(s, e).batch| && Turn(s, e).batch[Turn(s, e).next] < |s.table|
    then Some(Turn(s, e).batch[Turn(s, e).next]) else None
  }

  function Next(s: Sys, e: Step): Sys
    requires Enabled(s, e)
  {
    var t := Before(s, e);
    var making :=
      if e.Alloc? then s.making[Me(s, e.c) := Some(e.slot)]
      else if e.ForkDone? || e.ForkFail? then s.making[Me(s, e.c) := None]
      else s.making;
    var nextpid := if e.Alloc? then s.nextpid + 1 else s.nextpid;
    if !(e.Pass? || e.Leave?) then Sys(t, s.cpus, making, nextpid)
    else
      match Dispatched(s, e)
      case None => Sys(t, s.cpus[e.c := Turn(s, e)], making, nextpid)
      case Some(p) =>
        var cpu := Turn(s, e);
        Sys(t[p := t[p].(state := Running, ticks := t[p].ticks + 1)],
          s.cpus[e.c := cpu.(next := cpu.next + 1, running := Some(p))], making, nextpid)
  }

  /** The step gives the processor only to a runnable process. */
  predicate Good(s: Sys, e: Step)
    requires Enabled(s, e)
  {
    Dispatched(s, e).Some? ==> Before(s, e)[Dispatched(s, e).value].state == Runnable
  }

  /** userinit: one runnable process, every other slot unused and zeroed. */
  predicate Boot(s: Sys, ncpu: nat) {
    && |s.cpus| == ncpu && |s.making| == |s.table| && |s.table| > 0
    && (forall c :: 0 <= c < ncpu ==> s.cpus[c] == Cpu([], 0, None))
    && (forall i :: 0 <= i < |s.table| ==> s.making[i] == None)
    && s.table[0] == Proc(Runnable, 1, None, 0, 0, 0, 0) && s.nextpid == 2
    && forall i :: 0 < i < |s.table| ==> s.table[i] == Proc(Unused, 0, None, 0, 0, 0, 0)
  }

  function Run(s: Sys, es: seq<Step>): Option<Sys> {
    if es == [] then Some(s)
    else
      match Run(s, es[..|es| - 1])
      case None => None
      case Some(t) => if Enabled(t, es[|es| - 1]) then Some(Next(t, es[|es| - 1])) else None
  }

  // ---------- one processor ----------

  predicate Pending(t: Table, cpu: Cpu) {
    && cpu.next <= |cpu.batch| && Ascending(cpu.batch)
    && forall k :: cpu.next <= k < |cpu.batch| ==> Ready(t, cpu.batch[k])
  }

  predicate Making(s: Sys) {
    && |s.making| == |s.table|
    && forall p :: 0 <= p < |s.making| && s.making[p].Some? ==>
      s.making[p].value < |s.table| && s.table[s.making[p].value].state == Embryo
  }

  /** No two forks fill the same slot. */
  predicate Apart(s: Sys) {
    forall p, q :: 0 <= p < q < |s.making| && s.making[p].Some? && s.making[q].Some? ==> s.making[p] != s.making[q]
  }

  /** Only the process on the processor is marked running. */
  predicate OneRuns(t: Table, running: Option<nat>) {
    && (running.Some? ==> running.value < |t| && t[running.value].state == Running)
    && forall i :: 0 <= i < |t| && t[i].state == Running ==> running == Some(i)
  }

  /** One processor: only its process runs, and the rest of its batch is still runnable. */
  predicate Inv(s: Sys) {
    |s.cpus| == 1 && Making(s) && Apart(s) && Pending(s.table, s.cpus[0]) && OneRuns(s.table, s.cpus[0].running)
  }

  /** What the running process does to the table leaves every runnable process runnable. */
  lemma BeforeKeeps(s: Sys, e: Step)
    requires Inv(s) && Enabled(s, e)
    ensures forall i :: 0 <= i < |s.table| && s.table[i].state == Runnable ==> Before(s, e)[i].state == Runnable
    ensures e.Leave? ==> OneRuns(Before(s, e), None)
    ensures !e.Leave? ==> OneRuns(Before(s, e), s.cpus[0].running)
    ensures !e.ForkDone? && !e.ForkFail? ==>
              forall i :: 0 <= i < |s.table| && s.table[i].state == Embryo ==> Before(s, e)[i].state == Embryo
  {
  }

  lemma StepGood(s: Sys, e: Step)
    requires Inv(s) && Enabled(s, e)
    ensures Good(s, e) && Inv(Next(s, e))
  {
    if e.Pass? || e.Leave? {
      TurnGood(s, e);
    } else {
      BeforeKeeps(s, e);
    }
  }

  /** The steps that come back to the scheduler. */
  lemma TurnGood(s: Sys, e: Step)
    requires Inv(s) && Enabled(s, e) && (e.Pass? || e.Leave?)
    ensures Good(s, e) && Inv(Next(s, e))
  {
    BeforeKeeps(s, e);
    if e.Pass? {
      var t := Before(s, e);
      forall k | 0 <= k < |e.batch|
        ensures Ready(t, e.batch[k])
      {
        assert e.batch[k] in e.batch;
      }
    }
  }

  ghost predicate AllGood(s: Sys, es: seq<Step>)
    requires Run(s, es).Some?
  {
    es == [] || (AllGood(s, es[..|es| - 1]) && Good(Run(s, es[..|es| - 1]).value, es[|es| - 1]))
  }

  lemma {:induction false} OneCpu(s: Sys, es: seq<Step>)
    requires Boot(s, 1) && Run(s, es).Some?
    ensures AllGood(s, es) && Inv(Run(s, es).value)
  {
    if es != [] {
      var n := |es| - 1;
      OneCpu(s, es[..n]);
      StepGood(Run(s, es[..n]).value, es[n]);
    }
  }

  // ---------- the law of the decay ----------

  /** What a process has used, halved twice, and its nice value. */
  function Weight(p: Proc): int {
    p.ticks / 4 + p.nice
  }

  /** Runnable, and of least weight among the runnable. */
  predicate Lightest(t: Table, i: nat) {
    Ready(t, i) && forall j :: 0 <= j < |t| && Ready(t, j) ==> Weight(t[i]) <= Weight(t[j])
  }

  /** The runnable processes of least weight run first after a decay. */
  lemma DecayBatch(t: Table, batch: seq<nat>)
    requires IsBatch(Decay(t), batch) && forall i :: 0 <= i < |t| ==> t[i].ticks >= 0
    ensures forall i :: 0 <= i < |t| ==> (i in batch <==> Lightest(t, i))
  {
    var r := Decay(t);
    assert forall i :: 0 <= i < |t| ==> r[i].priority == Weight(t[i]) && Ready(r, i) == Ready(t, i);
    forall i | 0 <= i < |t|
      ensures i in batch <==> Best(r, i)
    {
    }
  }

  /** Having run more, or being nicer, never brings a process to run earlier, nor holds back another. */
  lemma NeverEarlier(t: Table, i: nat, p: Proc, batch: seq<nat>, batch': seq<nat>)
    requires i < |t| && (forall k :: 0 <= k < |t| ==> t[k].ticks >= 0)
    requires p == t[i].(ticks := p.ticks, nice := p.nice) && p.ticks >= t[i].ticks && p.nice >= t[i].nice
    requires IsBatch(Decay(t), batch) && IsBatch(Decay(t[i := p]), batch')
    ensures i in batch' ==> i in batch
    ensures forall j :: 0 <= j < |t| && j != i && j in batch ==> j in batch'
  {
    var t' := t[i := p];
    DecayBatch(t, batch);
    DecayBatch(t', batch');
    assert Weight(p) >= Weight(t[i]);
    forall k | 0 <= k < |t|
      ensures Ready(t', k) == Ready(t, k) && Weight(t'[k]) >= Weight(t[k]) && (k != i ==> t'[k] == t[k])
    {
    }
  }

  // ---------- what each call does ----------

  lemma RousedTwice(p: Proc, a: nat, q: Proc, b: nat, r: Proc)
    requires Roused(p, a, q) && Roused(q, b, r)
    ensures Roused(p, a + b, r)
  {
  }

  lemma {:induction false} SameZombies(t: Table, u: Table, me: nat, i: nat)
    requires i <= |t| == |u|
    requires forall k :: i <= k < |t| ==> u[k].parent == t[k].parent && (u[k].state == Zombie <==> t[k].state == Zombie)
    ensures ZombieKids(u, me, i) == ZombieKids(t, me, i)
    decreases |t| - i
  {
    if i < |t| {
      SameZombies(t, u, me, i + 1);
    }
  }

  lemma RousedOn(t: Table, a: nat, u: Table, b: nat, v: Table)
    requires AllRoused(t, a, u) && AllRoused(u, b, v)
    ensures AllRoused(t, a + b, v)
  {
    forall k | 0 <= k < |t|
      ensures Roused(t[k], a + b, v[k])
    {
      RousedTwice(t[k], a, u[k], b, v[k]);
    }
  }

  /** exit's loop: every child from slot i on is init's, and each sleeper has been woken once per zombie child. */
  lemma {:induction false} OrphanLaw(t: Table, me: nat, i: nat)
    requires i <= |t| && me != 0
    ensures AllRoused(Given(t, me, i), ZombieKids(t, me, i), Orphan(t, me, i))
    decreases |t| - i
  {
    if i == |t| {
      assert Given(t, me, i) == t;
    } else if t[i].parent == Some(me) {
      var v := t[i := t[i].(parent := Some(0))];
      var w := if t[i].state == Zombie then WakeAll(v) else v;
      OrphanLaw(w, me, i + 1);
      SameZombies(t, w, me, i + 1);
      GivenWoken(t, me, i, v, w);
      var z, g, h := if t[i].state == Zombie then 1 else 0, Given(t, me, i), Given(w, me, i + 1);
      var r := Orphan(w, me, i + 1);
      assert Orphan(t, me, i) == r && ZombieKids(t, me, i) == z + ZombieKids(w, me, i + 1);
      RousedOn(g, z, h, ZombieKids(w, me, i + 1), r);
    } else {
      OrphanLaw(t, me, i + 1);
      assert Given(t, me, i) == Given(t, me, i + 1);
    }
  }

  /** Waking and giving up do not disturb each other. */
  lemma GivenWoken(t: Table, me: nat, i: nat, v: Table, w: Table)
    requires i < |t| && me != 0 && t[i].parent == Some(me) && v == t[i := t[i].(parent := Some(0))]
    requires w == if t[i].state == Zombie then WakeAll(v) else v
    ensures AllRoused(Given(t, me, i), if t[i].state == Zombie then 1 else 0, Given(w, me, i + 1))
  {
    forall k | 0 <= k < |t|
      ensures Roused(Given(t, me, i)[k], if t[i].state == Zombie then 1 else 0, Given(w, me, i + 1)[k])
    {
    }
  }

  /**
   exit: every child of the process is init's, the process is a zombie, and whoever sleeps has been woken
   once, and once more for each zombie among the children. Nothing else changes.
   */
  lemma ExitLaw(s: Sys, c: nat)
    requires Enabled(s, Leave(c, Exit)) && s.table[Me(s, c)].state == Running
    ensures var (t, me, r) := (s.table, Me(s, c), Before(s, Leave(c, Exit)));
            forall k :: 0 <= k < |t| ==>
              var p := t[k].(parent := if t[k].parent == Some(me) then Some(0) else t[k].parent);
              if k == me then r[k] == p.(state := Zombie) else Roused(p, 1 + ZombieKids(t, me, 0), r[k])
  {
    var t, me := s.table, Me(s, c);
    var u := WakeAll(t);
    OrphanLaw(u, me, 0);
    SameZombies(t, u, me, 0);
    forall k | 0 <= k < |t|
      ensures Roused(Given(t, me, 0)[k], 1, Given(u, me, 0)[k])
    {
    }
    RousedOn(Given(t, me, 0), 1, Given(u, me, 0), ZombieKids(u, me, 0), Orphan(u, me, 0));
  }

  /** Only slot k of the table differs. */
  predicate Only(t: Table, r: Table, k: nat) {
    |r| == |t| && forall j :: 0 <= j < |t| && j != k ==> r[j] == t[j]
  }

  /** yield and sleep change the state of their caller alone. */
  lemma LeaveLaw(s: Sys, c: nat, way: Way)
    requires Enabled(s, Leave(c, way)) && !way.Exit?
    ensures var (t, me, r) := (s.table, Me(s, c), Before(s, Leave(c, way)));
            Only(t, r, me) && r[me] == t[me].(state := if way.Yield? then Runnable else Sleeping)
  {
  }

  /** wait frees a zombie child of its caller, the first in the table, and touches no other slot. */
  lemma WaitLaw(s: Sys, c: nat, child: nat)
    requires Enabled(s, Reap(c, child))
    ensures var (t, me, r) := (s.table, Me(s, c), Before(s, Reap(c, child)));
            && t[child].state == Zombie && t[child].parent == Some(me) && Only(t, r, child)
            && r[child].state == Unused && r[child].parent == None && r[child].pid == 0
            && forall j :: 0 <= j < child && t[j].state == Zombie ==> t[j].parent != Some(me)
  {
  }

  /** fork, when it succeeds, makes one runnable child of its caller, in the lowest free slot, with a new pid. */
  lemma ForkLaw(s: Sys, c: nat, slot: nat)
    requires Enabled(s, Alloc(c, slot)) && Me(s, c) != slot
    ensures Enabled(Next(s, Alloc(c, slot)), ForkDone(c))
    ensures var (t, u) := (s.table, Next(Next(s, Alloc(c, slot)), ForkDone(c)));
            && FirstUnused(t, slot) && Only(t, u.table, slot) && u.making == s.making[Me(s, c) := None]
            && u.table[slot] == t[slot].(state := Runnable, pid := s.nextpid, parent := Some(Me(s, c)))
            && u.nextpid == s.nextpid + 1 && u.cpus == s.cpus
  {
  }

  /** A dispatch marks the process running and counts one tick of use. */
  lemma DispatchLaw(s: Sys, e: Step)
    requires Enabled(s, e) && Dispatched(s, e).Some?
    ensures var (t, p, u) := (Before(s, e), Dispatched(s, e).value, Next(s, e));
            && Only(t, u.table, p) && u.table[p] == t[p].(state := Running, ticks := t[p].ticks + 1)
            && u.cpus[e.c].running == Some(p)
  {
  }

  /** nice takes values from 0 to 20 and refuses others. */
  lemma NiceLaw(s: Sys, c: nat, n: int)
    requires Enabled(s, Nice(c, n))
    ensures var (t, me, r) := (s.table, Me(s, c), Before(s, Nice(c, n)));
            Only(t, r, me) && r[me] == t[me].(nice := if 0 <= n <= 20 then n else t[me].nice)
  {
  }

  function Wakes(t: Table, w: nat): Table {
    if w == 0 then t else WakeAll(Wakes(t, w - 1))
  }

  lemma {:induction false} WakesRoused(t: Table, w: nat)
    ensures AllRoused(t, w, Wakes(t, w))
  {
    if w > 0 {
      WakesRoused(t, w - 1);
      RousedOn(t, w - 1, Wakes(t, w - 1), 1, Wakes(t, w));
    }
  }

  /** sleep(n) is slept through n wakeups, on whatever channels, and ended by the next; with n < 0 by none. */
  lemma SleepLaw(s: Sys, c: nat, n: int, w: nat)
    requires Enabled(s, SetSleep(c, n))
    ensures var (t, me, r) := (s.table, Me(s, c), Before(s, SetSleep(c, n)));
            && Only(t, r, me) && r[me] == t[me].(sleepTicks := n)
            && |Wakes(r[me := r[me].(state := Sleeping)], w)| == |t|
            && var q := Wakes(r[me := r[me].(state := Sleeping)], w)[me];
               && (q.state == Sleeping <==> n < 0 || w <= n) && (q.state != Sleeping ==> q.state == Runnable)
               && q.pid == t[me].pid && q.nice == t[me].nice && q.ticks == t[me].ticks && q.parent == t[me].parent
  {
    var (t, me, r) := (s.table, Me(s, c), Before(s, SetSleep(c, n)));
    var u := r[me := r[me].(state := Sleeping)];
    WakesRoused(u, w);
    assert Roused(u[me], w, Wakes(u, w)[me]);
  }

  // ---------- what every run keeps, on any number of processors ----------

  /** Pids are not shared, new ones are new, and use is counted from 0 up. */
  predicate TableOk(t: Table, nextpid: nat) {
    && (forall i :: 0 <= i < |t| ==> t[i].pid < nextpid && t[i].ticks >= 0)
    && forall i, j :: 0 <= i < j < |t| && t[i].pid == t[j].pid ==> t[i].pid == 0
  }

  lemma TableSame(t: Table, r: Table, nextpid: nat)
    requires TableOk(t, nextpid) && |r| == |t|
    requires forall i :: 0 <= i < |t| ==> (r[i].pid == t[i].pid || r[i].pid == 0) && r[i].ticks >= 0
    ensures TableOk(r, nextpid)
  {
  }

  lemma ExitTable(t: Table, me: nat, nextpid: nat)
    requires TableOk(t, nextpid) && me != 0
    ensures TableOk(Orphan(WakeAll(t), me, 0), nextpid)
  {
    var u := WakeAll(t);
    var r := Orphan(u, me, 0);
    OrphanLaw(u, me, 0);
    forall i | 0 <= i < |t|
      ensures r[i].pid == t[i].pid && r[i].ticks == t[i].ticks
    {
      assert Roused(t[i], 1, u[i]) && Roused(Given(u, me, 0)[i], ZombieKids(u, me, 0), r[i]);
    }
    TableSame(t, r, nextpid);
  }

  lemma BeforeTable(s: Sys, e: Step)
    requires TableOk(s.table, s.nextpid) && Enabled(s, e) && s.nextpid > 0
    ensures TableOk(Before(s, e), if e.Alloc? then s.nextpid + 1 else s.nextpid)
  {
    if e.Leave? && e.way.Exit? {
      ExitTable(s.table, Me(s, e.c), s.nextpid);
    } else if !e.Alloc? {
      TableSame(s.table, Before(s, e), s.nextpid);
    }
  }

  lemma {:induction false} RunTable(s: Sys, es: seq<Step>)
    requires Boot(s, |s.cpus|) && Run(s, es).Some?
    ensures TableOk(Run(s, es).value.table, Run(s, es).value.nextpid) && Run(s, es).value.nextpid > 0
  {
    if es != [] {
      var n := |es| - 1;
      RunTable(s, es[..n]);
      var t := Run(s, es[..n]).value;
      BeforeTable(t, es[n]);
      TableSame(Before(t, es[n]), Next(t, es[n]).table, Next(t, es[n]).nextpid);
    }
  }

  /** In every run, a pass that decays runs exactly the runnable processes of least halved use plus nice. */
  lemma DecayingPass(s: Sys, es: seq<Step>, c: nat, batch: seq<nat>)
    requires Boot(s, |s.cpus|) && Run(s, es).Some? && Enabled(Run(s, es).value, Pass(c, batch, true))
    ensures var t := Run(s, es).value.table;
            forall i :: 0 <= i < |t| ==> (i in batch <==> Lightest(t, i))
  {
    RunTable(s, es);
    DecayBatch(Run(s, es).value.table, batch);
  }

  /** In every run, kill wakes the one process with that pid if it sleeps, and touches no other. */
  lemma KillLaw(s: Sys, es: seq<Step>, c: nat, pid: nat, k: nat)
    requires Boot(s, |s.cpus|) && Run(s, es).Some? && Enabled(Run(s, es).value, Kill(c, pid))
    requires k < |Run(s, es).value.table| && Run(s, es).value.table[k].pid == pid != 0
    ensures var (t, r) := (Run(s, es).value.table, Before(Run(s, es).value, Kill(c, pid)));
            Only(t, r, k) && r[k] == t[k].(state := if t[k].state == Sleeping then Runnable else t[k].state)
  {
    RunTable(s, es);
  }

  // ---------- several processors ----------

  /** Two slots of equal priority, the first of them the process that boots. */
  function Start(ncpu: nat): Sys {
    var p := Proc(Unused, 0, None, 0, 0, 0, 0);
    Sys([p.(state := Runnable, pid := 1), p], seq(ncpu, _ => Cpu([], 0, None)), [None, None], 2)
  }

  lemma OneMore(s: Sys, es: seq<Step>, e: Step)
    requires Run(s, es).Some? && Enabled(Run(s, es).value, e)
    ensures Run(s, es + [e]) == Some(Next(Run(s, es).value, e))
  {
    assert (es + [e])[..|es + [e]| - 1] == es;
  }

  /** Two runnable processes of equal priority; processors 0 and 1 about to start a pass. */
  predicate Forked(s: Sys, ncpu: nat) {
    && |s.table| == |s.making| == 2 && |s.cpus| == ncpu && ncpu >= 2
    && Ready(s.table, 0) && Ready(s.table, 1) && s.table[0].priority == s.table[1].priority
    && s.cpus[0].running.None? && s.cpus[0].next == |s.cpus[0].batch| && s.cpus[1] == Cpu([], 0, None)
  }

  /** The first process runs, forks and yields. */
  lemma ForkStates(ncpu: nat) returns (s1: Sys, s2: Sys, s3: Sys, s4: Sys)
    requires ncpu >= 2
    ensures Enabled(Start(ncpu), Pass(0, [0], false)) && s1 == Next(Start(ncpu), Pass(0, [0], false))
    ensures Enabled(s1, Alloc(0, 1)) && s2 == Next(s1, Alloc(0, 1))
    ensures Enabled(s2, ForkDone(0)) && s3 == Next(s2, ForkDone(0))
    ensures Enabled(s3, Leave(0, Yield)) && s4 == Next(s3, Leave(0, Yield)) && Forked(s4, ncpu)
  {
    var s := Start(ncpu);
    assert IsBatch(s.table, [0]);
    s1 := Next(s, Pass(0, [0], false));
    assert s1.table[0].state == Running && s1.cpus[0] == Cpu([0], 1, Some(0));
    s2 := Next(s1, Alloc(0, 1));
    s3 := Next(s2, ForkDone(0));
    assert s3.table[1].state == Runnable && s3.cpus == s1.cpus && s3.table[0] == s1.table[0];
    s4 := Next(s3, Leave(0, Yield));
  }

  lemma ForkFirst(ncpu: nat) returns (es: seq<Step>)
    requires ncpu >= 2
    ensures Run(Start(ncpu), es).Some? && Forked(Run(Start(ncpu), es).value, ncpu)
  {
    var s1, s2, s3, s4 := ForkStates(ncpu);
    es := Extend(Start(ncpu), [], s1, Pass(0, [0], false));
    es := Extend(Start(ncpu), es, s2, Alloc(0, 1));
    es := Extend(Start(ncpu), es, s3, ForkDone(0));
    es := Extend(Start(ncpu), es, s4, Leave(0, Yield));
  }

  lemma Extend(s: Sys, es: seq<Step>, t: Sys, e: Step) returns (fs: seq<Step>)
    requires Run(s, es).Some? && Enabled(Run(s, es).value, e) && t == Next(Run(s, es).value, e)
    ensures Run(s, fs) == Some(t)
  {
    OneMore(s, es, e);
    fs := es + [e];
  }

  /** A second processor takes the forked process while the first still holds it in its batch. */
  lemma Overtake(s: Sys, ncpu: nat)
    requires Forked(s, ncpu)
    ensures Enabled(s, Pass(0, [0, 1], false))
    ensures Enabled(Next(s, Pass(0, [0, 1], false)), Pass(1, [1], false))
    ensures var t := Next(Next(s, Pass(0, [0, 1], false)), Pass(1, [1], false));
            Enabled(t, Leave(0, Yield)) && !Good(t, Leave(0, Yield))
  {
    var e5, e6 := Pass(0, [0, 1], false), Pass(1, [1], false);
    assert IsBatch(s.table, [0, 1]);
    var s5 := Next(s, e5);
    assert s5.table[0].state == Running && Ready(s5.table, 1);
    assert IsBatch(s5.table, [1]);
  }

  lemma TwoCpus(ncpu: nat) returns (es: seq<Step>, e: Step)
    requires ncpu >= 2
    ensures Boot(Start(ncpu), ncpu) && Run(Start(ncpu), es).Some? && Enabled(Run(Start(ncpu), es).value, e)
    ensures !Good(Run(Start(ncpu), es).value, e)
  {
    var s := Start(ncpu);
    var fs := ForkFirst(ncpu);
    Overtake(Run(s, fs).value, ncpu);
    var e5, e6 := Pass(0, [0, 1], false), Pass(1, [1], false);
    OneMore(s, fs, e5);
    OneMore(s, fs + [e5], e6);
    es, e := fs + [e5] + [e6], Leave(0, Yield);
  }

  /** On ncpu processors every dispatch of every run from boot finds its process runnable. */
  ghost predicate Safe(ncpu: nat) {
    forall s, es :: Boot(s, ncpu) && Run(s, es).Some? ==> AllGood(s, es)
  }

  lemma {:induction false} NoCpu(s: Sys, es: seq<Step>)
    requires Boot(s, 0) && Run(s, es).Some?
    ensures AllGood(s, es) && |Run(s, es).value.cpus| == 0
  {
    if es != [] {
      NoCpu(s, es[..|es| - 1]);
    }
  }

  lemma SafeExactly(ncpu: nat)
    ensures Safe(ncpu) <==> ncpu <= 1
  {
    if ncpu >= 2 {
      var es, e := TwoCpus(ncpu);
      OneMore(Start(ncpu), es, e);
      assert (es + [e])[..|es|] == es;
      assert !AllGood(Start(ncpu), es + [e]);
    } else {
      forall s, es | Boot(s, ncpu) && Run(s, es).Some?
        ensures AllGood(s, es)
      {
        if ncpu == 1 {
          OneCpu(s, es);
        } else {
          NoCpu(s, es);
        }
      }
    }
  }
}
