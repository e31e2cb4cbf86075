/**
 The redo log of log.c as a transition system. One step is one section that runs under
 log.lock, or one single-block disk write: a crash can fall between any two steps.
 `mem` is what bread returns for each block (buffer cache over disk) and is lost in a crash.
 */
module LogProtocol {
  import opened Words
  import opened Wrappers
  import opened Blocks

  const MAXOPBLOCKS: nat := 10
  const LOGSIZE: nat := 30

  /** log.start, log.size and the disk size; `bound` is how many distinct blocks one operation may log. */
  datatype Layout = Layout(start: nat, size: nat, nblocks: nat, bound: nat)

  /** A block outside the log area. */
  predicate Home(l: Layout, b: nat) {
    b < l.nblocks && !(l.start <= b < l.start + l.size)
  }

  predicate Fits(l: Layout) {
    l.size >= LOGSIZE && l.start + l.size <= l.nblocks <= U32
  }

  /** An operation may log MAXOPBLOCKS blocks only if the log has a slot more than mkfs gives it. */
  predicate Sound(l: Layout) {
    Fits(l) && (l.bound < MAXOPBLOCKS || (l.bound == MAXOPBLOCKS && l.size > LOGSIZE))
  }

  type Disk = seq<Block>

  // ---------- the on-disk header ----------

  /** hb->n, then n block numbers; slots past n keep what they held. */
  function PutHeader(hb: Block, lh: seq<nat>): (r: Block)
    requires |lh| <= LOGSIZE && forall i :: 0 <= i < |lh| ==> lh[i] < U32
  {
    PutEntries(Put32(hb, 0, |lh|), lh, |lh|)
  }

  function PutEntries(hb: Block, lh: seq<nat>, k: nat): (r: Block)
    requires k <= |lh| <= LOGSIZE && forall i :: 0 <= i < |lh| ==> lh[i] < U32
    ensures forall i :: 0 <= i < k ==> Get32(r, i + 1) == lh[i]
    ensures Get32(r, 0) == Get32(hb, 0)
  {
    if k == 0 then hb else Put32(PutEntries(hb, lh, k - 1), k, lh[k - 1])
  }

  /** What read_head copies out of the header block. */
  function GetHeader(hb: Block): (lh: seq<nat>)
    requires Get32(hb, 0) <= LOGSIZE
  {
    seq(Get32(hb, 0), i requires 0 <= i < Get32(hb, 0) => Get32(hb, i + 1))
  }

  lemma HeaderRoundTrip(hb: Block, lh: seq<nat>)
    requires |lh| <= LOGSIZE && forall i :: 0 <= i < |lh| ==> lh[i] < U32
    ensures Get32(PutHeader(hb, lh), 0) == |lh| && GetHeader(PutHeader(hb, lh)) == lh
  {
  }

  // ---------- the transition system ----------

  /** One FS system call between begin_op and end_op. */
  datatype Op = Op(open: bool, held: set<nat>, unlogged: set<nat>, logged: set<nat>, checked: Option<nat>)

  datatype Phase =
    | Running
    | CopyingLog(copied: nat)
    | Installing(installed: nat, recovering: bool)
    | Committed
    | Booting

  datatype State = State(disk: Disk, mem: Disk, lh: seq<nat>, ops: seq<Op>, outstanding: nat, phase: Phase)

  datatype Label =
    | Begin
    | Lock(op: nat, b: nat)
    | Modify(op: nat, b: nat, data: Block)
    | Check(op: nat, b: nat)
    | Append(op: nat)
    | Unlock(op: nat, b: nat)
    | End(op: nat)
    | CopyBlock
    | WriteHead
    | InstallBlock
    | EraseHead
    | Finish
    | ReadHead
    | Crash

  predicate Open(s: State, i: nat) {
    i < |s.ops| && s.ops[i].open
  }

  /** The test at the top of log_write, made without holding log.lock. */
  predicate TooBig(l: Layout, s: State) {
    |s.lh| >= LOGSIZE || |s.lh| >= l.size - 1
  }

  predicate Panics(l: Layout, s: State) {
    TooBig(l, s) || s.outstanding < 1
  }

  predicate Enabled(l: Layout, s: State, a: Label) {
    match a
    case Begin => s.phase.Running? && |s.lh| + (s.outstanding + 1) * MAXOPBLOCKS <= LOGSIZE
    case Lock(i, b) => Open(s, i) && Home(l, b) && forall o <- s.ops :: b !in o.held
    case Modify(i, b, v) => Open(s, i) && b in s.ops[i].held && s.ops[i].checked.None? && b < |s.mem|
    case Check(i, b) => MayLog(l, s, i, b) && !Panics(l, s)
    case Append(i) => Open(s, i) && s.ops[i].checked.Some?
    case Unlock(i, b) => Open(s, i) && b in s.ops[i].held && b !in s.ops[i].unlogged && s.ops[i].checked.None?
    case End(i) => Open(s, i) && s.ops[i].held == {} && s.outstanding > 0
    case CopyBlock =>
      s.phase.CopyingLog? && s.phase.copied < |s.lh| &&
      s.lh[s.phase.copied] < |s.mem| && l.start + s.phase.copied + 1 < |s.disk| == |s.mem|
    case WriteHead =>
      s.phase.CopyingLog? && s.phase.copied == |s.lh| && 0 < |s.lh| <= LOGSIZE &&
      l.start < |s.disk| == |s.mem| && forall i :: 0 <= i < |s.lh| ==> s.lh[i] < U32
    case InstallBlock =>
      s.phase.Installing? && s.phase.installed < |s.lh| &&
      s.lh[s.phase.installed] < |s.disk| == |s.mem| && l.start + s.phase.installed + 1 < |s.mem|
    case EraseHead =>
      s.phase.Installing? && s.phase.installed == |s.lh| && l.start < |s.disk| == |s.mem|
    case Finish => s.phase.Committed? || (s.phase == CopyingLog(0) && s.lh == [])
    case ReadHead => s.phase.Booting? && l.start < |s.mem| && Get32(s.mem[l.start], 0) <= LOGSIZE
    case Crash => true
  }

  /** Operation i holds block b and may still log it without passing its bound. */
  predicate MayLog(l: Layout, s: State, i: nat, b: nat) {
    Open(s, i) && b in s.ops[i].held && s.ops[i].checked.None? && |s.ops[i].logged + {b}| <= l.bound
  }

  function SetOp(s: State, i: nat, o: Op): State
    requires i < |s.ops|
  {
    s.(ops := s.ops[i := o])
  }

  /** bwrite: the cached copy and the disk block become v together. */
  function Write(s: State, b: nat, v: Block): State
    requires b < |s.disk| == |s.mem|
  {
    s.(disk := s.disk[b := v], mem := s.mem[b := v])
  }

  function Next(l: Layout, s: State, a: Label): State
    requires Enabled(l, s, a)
  {
    match a
    case Begin => s.(outstanding := s.outstanding + 1, ops := s.ops + [Op(true, {}, {}, {}, None)])
    case Lock(i, b) => SetOp(s, i, s.ops[i].(held := s.ops[i].held + {b}))
    case Modify(i, b, v) =>
      SetOp(s.(mem := s.mem[b := v]), i, s.ops[i].(unlogged := s.ops[i].unlogged + {b}))
    case Check(i, b) => SetOp(s, i, s.ops[i].(checked := Some(b)))
    case Append(i) =>
      var b := s.ops[i].checked.value;
      var o := s.ops[i].(checked := None, logged := s.ops[i].logged + {b}, unlogged := s.ops[i].unlogged - {b});
      SetOp(s.(lh := Absorb(s.lh, b)), i, o)
    case Unlock(i, b) => SetOp(s, i, s.ops[i].(held := s.ops[i].held - {b}))
    case End(i) =>
      SetOp(s.(outstanding := s.outstanding - 1,
               phase := if s.outstanding == 1 then CopyingLog(0) else s.phase), i, s.ops[i].(open := false))
    case CopyBlock =>
      Write(s, l.start + s.phase.copied + 1, s.mem[s.lh[s.phase.copied]]).(phase := CopyingLog(s.phase.copied + 1))
    case WriteHead => Write(s, l.start, PutHeader(s.mem[l.start], s.lh)).(phase := Installing(0, false))
    case InstallBlock =>
      Write(s, s.lh[s.phase.installed], s.mem[l.start + s.phase.installed + 1])
        .(phase := Installing(s.phase.installed + 1, s.phase.recovering))
    case EraseHead =>
      Write(s, l.start, PutHeader(s.mem[l.start], []))
        .(lh := [], phase := if s.phase.recovering then Running else Committed)
    case Finish => s.(phase := Running)
    case ReadHead => s.(lh := GetHeader(s.mem[l.start]), phase := Installing(0, true))
    case Crash => State(s.disk, s.disk, [], [], 0, Booting)
  }

  /** Log absorption: a block already in the header keeps its slot. */
  function Absorb(lh: seq<nat>, b: nat): seq<nat> {
    if b in lh then lh else lh + [b]
  }

  // ---------- what recovery computes, and the atomic specification ----------

  /** install_trans on the first k header entries. */
  function Install(l: Layout, d: Disk, lh: seq<nat>, k: nat): (r: Disk)
    requires k <= |lh| && l.start + |lh| < |d|
    requires forall i :: 0 <= i < |lh| ==> Home(l, lh[i]) && lh[i] < |d|
    ensures |r| == |d|
  {
    if k == 0 then d else Install(l, d, lh, k - 1)[lh[k - 1] := d[l.start + k]]
  }

  predicate HeaderOk(l: Layout, lh: seq<nat>) {
    |lh| < l.size && |lh| <= LOGSIZE && (forall i :: 0 <= i < |lh| ==> Home(l, lh[i])) &&
    forall i, j :: 0 <= i < j < |lh| ==> lh[i] != lh[j]
  }

  predicate DiskOk(l: Layout, d: Disk) {
    Fits(l) && |d| == l.nblocks && Get32(d[l.start], 0) <= LOGSIZE && HeaderOk(l, GetHeader(d[l.start]))
  }

  /** The disk that recover_from_log leaves, as far as home blocks go. */
  function Recover(l: Layout, d: Disk): Disk
    requires DiskOk(l, d)
  {
    var lh := GetHeader(d[l.start]);
    Install(l, d, lh, |lh|)
  }

  predicate HomeEq(l: Layout, d: Disk, e: Disk) {
    |d| == |e| == l.nblocks && forall b :: 0 <= b < l.nblocks && Home(l, b) ==> d[b] == e[b]
  }

  /** An atomic store: writes are pending until a commit, which needs every operation closed. */
  datatype Spec = Spec(durable: Disk, pending: Disk, open: nat)

  predicate SpecEnabled(a: Spec, e: Label) {
    match e
    case Modify(_, b, _) => a.open > 0 && b < |a.pending|
    case End(_) => a.open > 0
    case WriteHead => a.open == 0
    case _ => true
  }

  function SpecNext(a: Spec, e: Label): Spec
    requires SpecEnabled(a, e)
  {
    match e
    case Begin => a.(open := a.open + 1)
    case End(_) => a.(open := a.open - 1)
    case Modify(_, b, v) => a.(pending := a.pending[b := v])
    case WriteHead => a.(durable := a.pending)
    case Crash => Spec(a.durable, a.durable, 0)
    case _ => a
  }

  // ---------- runs ----------

  /** A machine about to boot on a disk image whose header is well formed. */
  predicate Init(l: Layout, s: State) {
    DiskOk(l, s.disk) && s == State(s.disk, s.disk, [], [], 0, Booting)
  }

  /** The state after the labels es, each of which must be enabled when it is taken. */
  function Run(l: Layout, s: State, es: seq<Label>): Option<State> {
    if es == [] then Some(s) else
      match Run(l, s, es[..|es| - 1])
      case None => None
      case Some(t) => if Enabled(l, t, es[|es| - 1]) then Some(Next(l, t, es[|es| - 1])) else None
  }

  function SpecRun(a: Spec, es: seq<Label>): Option<Spec> {
    if es == [] then Some(a) else
      match SpecRun(a, es[..|es| - 1])
      case None => None
      case Some(c) => if SpecEnabled(c, es[|es| - 1]) then Some(SpecNext(c, es[|es| - 1])) else None
  }

  /** The atomic store that starts with what the first recovery will find. */
  function SpecInit(l: Layout, d: Disk): Spec
    requires DiskOk(l, d)
  {
    Spec(Recover(l, d), Recover(l, d), 0)
  }
}
