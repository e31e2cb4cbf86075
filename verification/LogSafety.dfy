/** Crash atomicity and log reservation over every run of the log protocol. */
module LogSafety {
  import opened Wrappers
  import opened Blocks
  import opened LogProtocol

  // ---------- counting over operations ----------

  function CountOpen(ops: seq<Op>): nat {
    if ops == [] then 0 else CountOpen(ops[..|ops| - 1]) + if ops[|ops| - 1].open then 1 else 0
  }

  /** Header slots an operation may still take. */
  function Credit(l: Layout, o: Op): int {
    if o.open then l.bound - |o.logged| else 0
  }

  /** Header slots the outstanding operations may still take together. */
  function Credits(l: Layout, ops: seq<Op>): int {
    if ops == [] then 0 else Credits(l, ops[..|ops| - 1]) + Credit(l, ops[|ops| - 1])
  }

  lemma {:induction false} UpdateSums(l: Layout, ops: seq<Op>, i: nat, o: Op)
    requires i < |ops|
    ensures CountOpen(ops[i := o]) + (if ops[i].open then 1 else 0) == CountOpen(ops) + if o.open then 1 else 0
    ensures Credits(l, ops[i := o]) == Credits(l, ops) - Credit(l, ops[i]) + Credit(l, o)
  {
    var n := |ops| - 1;
    if i < n {
      assert ops[i := o][..n] == ops[..n][i := o];
      UpdateSums(l, ops[..n], i, o);
    } else {
      assert ops[i := o][..n] == ops[..n];
    }
  }

  lemma {:induction false} CreditsBound(l: Layout, ops: seq<Op>)
    ensures Credits(l, ops) <= l.bound * CountOpen(ops)
  {
    if ops != [] {
      CreditsBound(l, ops[..|ops| - 1]);
    }
  }

  lemma {:induction false} CreditsNonNegative(l: Layout, ops: seq<Op>, i: nat)
    requires i < |ops| && forall j :: 0 <= j < |ops| ==> Credit(l, ops[j]) >= 0
    ensures Credits(l, ops) >= Credit(l, ops[i]) >= 0
    ensures ops[i].open ==> CountOpen(ops) >= 1
  {
    var n := |ops| - 1;
    if i < n {
      CreditsNonNegative(l, ops[..n], i);
    } else if n > 0 {
      CreditsNonNegative(l, ops[..n], 0);
    }
  }

  lemma {:induction false} NoneOpen(ops: seq<Op>, i: nat)
    requires i < |ops| && CountOpen(ops) == 0
    ensures !ops[i].open
  {
    var n := |ops| - 1;
    if i < n {
      NoneOpen(ops[..n], i);
    }
  }

  // ---------- the invariant ----------

  ghost predicate Shape(l: Layout, s: State, a: Spec) {
    Sound(l) && |s.disk| == |s.mem| == |a.durable| == |a.pending| == l.nblocks &&
    Get32(s.disk[l.start], 0) <= LOGSIZE &&
    (forall b :: l.start <= b < l.start + l.size ==> s.mem[b] == s.disk[b])
  }

  predicate OpOk(l: Layout, lh: seq<nat>, o: Op) {
    (forall b <- o.held :: Home(l, b)) && o.unlogged <= o.held && (!o.open ==> o.held == {}) &&
    (o.checked.Some? ==> o.open && o.checked.value in o.held && |o.logged + {o.checked.value}| <= l.bound) &&
    |o.logged| <= l.bound && (o.open ==> forall b <- o.logged :: b in lh)
  }

  predicate Disjoint(ops: seq<Op>) {
    forall i, j :: 0 <= i < j < |ops| ==> ops[i].held !! ops[j].held
  }

  ghost predicate OpsOk(l: Layout, s: State, a: Spec) {
    s.outstanding == CountOpen(s.ops) == a.open && (s.outstanding > 0 ==> s.phase.Running?) &&
    (forall i :: 0 <= i < |s.ops| ==> OpOk(l, s.lh, s.ops[i])) && Disjoint(s.ops)
  }

  /** What the test in begin_op leaves for the header at most. */
  function Room(l: Layout): nat {
    if l.bound < MAXOPBLOCKS then LOGSIZE - 2 else LOGSIZE
  }

  /** Every header entry is distinct, and the outstanding operations fit in what is left of the log. */
  predicate Reserved(l: Layout, s: State) {
    HeaderOk(l, s.lh) && (s.phase.Running? ==> |s.lh| + Credits(l, s.ops) <= Room(l)) &&
    (s.phase.Running? && s.outstanding == 0 ==> s.lh == [])
  }

  /** Replaying header h over d yields the home blocks of e. */
  predicate Replays(l: Layout, d: Disk, h: seq<nat>, e: Disk) {
    |d| == |e| == l.nblocks && l.start + |h| < l.nblocks && HeaderOk(l, h) &&
    (forall j :: 0 <= j < |h| ==> d[l.start + j + 1] == e[h[j]]) &&
    (forall b :: 0 <= b < l.nblocks && Home(l, b) && b !in h ==> d[b] == e[b])
  }

  predicate InFlight(s: State, b: nat) {
    b in s.lh || exists i :: 0 <= i < |s.ops| && b in s.ops[i].unlogged
  }

  /** The first t header entries are home; the cache differs from disk at most on the others. */
  predicate InstalledTo(l: Layout, d: Disk, m: Disk, h: seq<nat>, t: nat, e: Disk) {
    |d| == |m| == |e| == l.nblocks && HeaderOk(l, h) && t <= |h| &&
    (forall j :: 0 <= j < t ==> d[h[j]] == e[h[j]]) &&
    (forall b :: 0 <= b < l.nblocks && b !in h[t..] ==> m[b] == d[b])
  }

  predicate InstallingOk(l: Layout, d: Disk, m: Disk, h: seq<nat>, t: nat, recovering: bool, e: Disk) {
    InstalledTo(l, d, m, h, t, e) && if recovering then m == d else HomeEq(l, m, e)
  }

  ghost predicate PhaseOk(l: Layout, s: State, a: Spec)
    requires Shape(l, s, a) && HeaderOk(l, s.lh)
  {
    var h := GetHeader(s.disk[l.start]);
    Replays(l, s.disk, h, a.durable) &&
    match s.phase
    case Booting => s.mem == s.disk && a.pending == a.durable && s.lh == []
    case Running =>
      h == [] && HomeEq(l, s.mem, a.pending) &&
      (forall b :: 0 <= b < l.nblocks && !InFlight(s, b) ==> s.mem[b] == s.disk[b])
    case CopyingLog(t) =>
      h == [] && HomeEq(l, s.mem, a.pending) && t <= |s.lh| &&
      (forall j :: 0 <= j < t ==> s.disk[l.start + j + 1] == s.mem[s.lh[j]]) &&
      (forall b :: 0 <= b < l.nblocks && b !in s.lh ==> s.mem[b] == s.disk[b])
    case Installing(t, recovering) =>
      h == s.lh && HomeEq(l, a.durable, a.pending) && InstallingOk(l, s.disk, s.mem, s.lh, t, recovering, a.durable)
    case Committed => h == [] && s.mem == s.disk && HomeEq(l, s.mem, a.pending) && s.lh == []
  }

  ghost predicate Inv(l: Layout, s: State, a: Spec) {
    Shape(l, s, a) && OpsOk(l, s, a) && Reserved(l, s) && PhaseOk(l, s, a)
  }

  // ---------- every step keeps it ----------

  lemma InitInv(l: Layout, s: State)
    requires Sound(l) && Init(l, s)
    ensures Inv(l, s, Spec(Recover(l, s.disk), Recover(l, s.disk), 0))
  {
    var h := GetHeader(s.disk[l.start]);
    RecoverReplays(l, s.disk);
  }

  lemma {:induction false} InstallAt(l: Layout, d: Disk, h: seq<nat>, k: nat, b: nat)
    requires Fits(l) && |d| == l.nblocks && HeaderOk(l, h) && k <= |h| && Home(l, b)
    ensures b !in h[..k] ==> Install(l, d, h, k)[b] == d[b]
    ensures forall j :: 0 <= j < k && h[j] == b ==> Install(l, d, h, k)[b] == d[l.start + j + 1]
  {
    if k > 0 {
      assert h[..k] == h[..k - 1] + [h[k - 1]];
      InstallAt(l, d, h, k - 1, b);
    }
  }

  lemma RecoverReplays(l: Layout, d: Disk)
    requires DiskOk(l, d)
    ensures Replays(l, d, GetHeader(d[l.start]), Recover(l, d))
  {
    var h := GetHeader(d[l.start]);
    assert h[..|h|] == h;
    forall b: nat | Home(l, b)
      ensures b !in h ==> Recover(l, d)[b] == d[b]
      ensures forall j :: 0 <= j < |h| && h[j] == b ==> Recover(l, d)[b] == d[l.start + j + 1]
    {
      InstallAt(l, d, h, |h|, b);
    }
  }

  lemma ReplayUnique(l: Layout, d: Disk, e: Disk)
    requires DiskOk(l, d) && Replays(l, d, GetHeader(d[l.start]), e)
    ensures HomeEq(l, Recover(l, d), e)
  {
    RecoverReplays(l, d);
    var h := GetHeader(d[l.start]);
    forall b | 0 <= b < l.nblocks && Home(l, b)
      ensures Recover(l, d)[b] == e[b]
    {
      if b in h {
        var j :| 0 <= j < |h| && h[j] == b;
      }
    }
  }

  // A step of one operation: the disk stays, and whatever differs between cache and disk stays in flight.

  lemma OpPhase(l: Layout, s: State, e: Label, a: Spec)
    requires Inv(l, s, a) && Enabled(l, s, e) && HeaderOk(l, Next(l, s, e).lh)
    requires e.Lock? || e.Modify? || e.Check? || e.Unlock? || e.Append?
    ensures SpecEnabled(a, e) && PhaseOk(l, Next(l, s, e), SpecNext(a, e))
  {
    var s' := Next(l, s, e);
    OpenRuns(l, s, e.op, a);
    forall b: nat | b < l.nblocks && !InFlight(s', b)
      ensures s'.mem[b] == s.disk[b]
    {
      StaysInFlight(l, s, e, b);
    }
  }

  /** What an operation has changed stays in flight, and so does what it changes now. */
  lemma StaysInFlight(l: Layout, s: State, e: Label, b: nat)
    requires Enabled(l, s, e) && (e.Lock? || e.Modify? || e.Check? || e.Unlock? || e.Append?)
    requires e.Unlock? ==> e.b !in s.ops[e.op].unlogged
    ensures InFlight(s, b) ==> InFlight(Next(l, s, e), b)
    ensures e.Modify? && e.b == b ==> InFlight(Next(l, s, e), b)
  {
    var s' := Next(l, s, e);
    if e.Modify? {
      assert e.b in s'.ops[e.op].unlogged;
    }
    assert forall j :: 0 <= j < |s.ops| && b in s.ops[j].unlogged ==> b in s'.ops[j].unlogged || b in s'.lh;
  }

  lemma OpenRuns(l: Layout, s: State, i: nat, a: Spec)
    requires Inv(l, s, a) && Open(s, i)
    ensures s.phase.Running? && s.outstanding >= 1
    ensures Credits(l, s.ops) >= Credit(l, s.ops[i]) >= 0
  {
    CreditsNonNegative(l, s.ops, i);
  }

  lemma OpTable(l: Layout, s: State, e: Label, a: Spec)
    requires Sound(l) && OpsOk(l, s, a) && Reserved(l, s) && Enabled(l, s, e)
    requires e.Lock? || e.Modify? || e.Check? || e.Unlock?
    requires SpecEnabled(a, e)
    ensures OpsOk(l, Next(l, s, e), SpecNext(a, e)) && Reserved(l, Next(l, s, e))
  {
    var (o, o') := (s.ops[e.op], Next(l, s, e).ops[e.op]);
    UpdateSums(l, s.ops, e.op, o');
    assert o'.open && o'.logged == o.logged;
    assert OpOk(l, s.lh, o');
    ReplaceOp(l, s.lh, s.ops, e.op, o');
  }

  lemma ReplaceOp(l: Layout, lh: seq<nat>, ops: seq<Op>, i: nat, o: Op)
    requires i < |ops| && OpOk(l, lh, o) && Disjoint(ops)
    requires forall j :: 0 <= j < |ops| ==> OpOk(l, lh, ops[j])
    requires forall j :: 0 <= j < |ops| && j != i ==> o.held - ops[i].held !! ops[j].held
    ensures var r := ops[i := o]; Disjoint(r) && forall j :: 0 <= j < |r| ==> OpOk(l, lh, r[j])
  {
    forall j | 0 <= j < |ops| && j != i
      ensures o.held !! ops[j].held
    {
      assert ops[i].held !! ops[j].held;
    }
  }

  lemma OpStep(l: Layout, s: State, e: Label, a: Spec)
    requires Inv(l, s, a) && Enabled(l, s, e)
    requires e.Lock? || e.Modify? || e.Check? || e.Unlock?
    ensures SpecEnabled(a, e) && Inv(l, Next(l, s, e), SpecNext(a, e))
  {
    OpPhase(l, s, e, a);
    OpTable(l, s, e, a);
  }

  /** The new operation still fits: this is what the test in begin_op is for. */
  lemma BeginRoom(l: Layout, n: nat, credits: int, outstanding: nat)
    requires Sound(l) && n + (outstanding + 1) * MAXOPBLOCKS <= LOGSIZE
    requires credits <= l.bound * outstanding && (outstanding == 0 ==> n == 0)
    ensures n + credits + l.bound <= Room(l)
  {
    assert outstanding <= 2;
    if outstanding == 0 {
      assert l.bound * outstanding == 0;
    } else if outstanding == 1 {
      assert l.bound * outstanding == l.bound;
    } else {
      assert l.bound * outstanding == 2 * l.bound;
    }
  }

  lemma BeginOps(l: Layout, lh: seq<nat>, ops: seq<Op>, o: Op)
    requires o == Op(true, {}, {}, {}, None) && Disjoint(ops) && forall i :: 0 <= i < |ops| ==> OpOk(l, lh, ops[i])
    ensures Disjoint(ops + [o]) && forall i :: 0 <= i < |ops + [o]| ==> OpOk(l, lh, (ops + [o])[i])
    ensures CountOpen(ops + [o]) == CountOpen(ops) + 1 && Credits(l, ops + [o]) == Credits(l, ops) + l.bound
  {
    assert (ops + [o])[..|ops|] == ops;
  }

  lemma BeginTable(l: Layout, s: State, a: Spec)
    requires Sound(l) && OpsOk(l, s, a) && Reserved(l, s) && Enabled(l, s, Begin)
    ensures OpsOk(l, Next(l, s, Begin), SpecNext(a, Begin)) && Reserved(l, Next(l, s, Begin))
  {
    CreditsBound(l, s.ops);
    BeginRoom(l, |s.lh|, Credits(l, s.ops), s.outstanding);
    BeginOps(l, s.lh, s.ops, Op(true, {}, {}, {}, None));
  }

  lemma BeginStep(l: Layout, s: State, a: Spec)
    requires Inv(l, s, a) && Enabled(l, s, Begin)
    ensures Inv(l, Next(l, s, Begin), SpecNext(a, Begin))
  {
    BeginTable(l, s, a);
    var s' := Next(l, s, Begin);
    assert forall b: nat, i :: 0 <= i < |s.ops| && b in s.ops[i].unlogged ==> b in s'.ops[i].unlogged;
    assert forall b: nat :: InFlight(s, b) ==> InFlight(s', b);
  }

  lemma AppendOps(l: Layout, s: State, i: nat, a: Spec)
    requires Sound(l) && OpsOk(l, s, a) && Reserved(l, s) && Enabled(l, s, Append(i)) && s.phase.Running?
    ensures OpsOk(l, Next(l, s, Append(i)), a)
  {
    UpdateSums(l, s.ops, i, Next(l, s, Append(i)).ops[i]);
  }

  /** A new header entry is paid for by the operation's credit; an absorbed one costs nothing. */
  lemma AppendTable(l: Layout, s: State, i: nat, a: Spec)
    requires Sound(l) && OpsOk(l, s, a) && Reserved(l, s) && Enabled(l, s, Append(i)) && s.phase.Running?
    ensures OpsOk(l, Next(l, s, Append(i)), a) && Reserved(l, Next(l, s, Append(i)))
  {
    var s' := Next(l, s, Append(i));
    var b := s.ops[i].checked.value;
    AppendOps(l, s, i, a);
    UpdateSums(l, s.ops, i, s'.ops[i]);
    if b in s.ops[i].logged {
      assert s.ops[i].logged + {b} == s.ops[i].logged;
    }
    CreditsNonNegative(l, s'.ops, i);
  }

  lemma AppendStep(l: Layout, s: State, i: nat, a: Spec)
    requires Inv(l, s, a) && Enabled(l, s, Append(i))
    ensures Inv(l, Next(l, s, Append(i)), SpecNext(a, Append(i)))
  {
    OpenRuns(l, s, i, a);
    AppendTable(l, s, i, a);
    OpPhase(l, s, Append(i), a);
  }

  lemma EndStep(l: Layout, s: State, i: nat, a: Spec)
    requires Inv(l, s, a) && Enabled(l, s, End(i))
    ensures SpecEnabled(a, End(i)) && Inv(l, Next(l, s, End(i)), SpecNext(a, End(i)))
  {
    var s' := Next(l, s, End(i));
    OpenRuns(l, s, i, a);
    UpdateSums(l, s.ops, i, s'.ops[i]);
    forall b: nat, j | 0 <= j < |s.ops| && b in s.ops[j].unlogged
      ensures s'.outstanding > 0 && b in s'.ops[j].unlogged
    {
      if s.outstanding == 1 {
        NoneOpen(s'.ops, j);
        assert false;
      }
    }
    assert forall b: nat :: InFlight(s, b) ==> if s'.outstanding > 0 then InFlight(s', b) else b in s.lh;
  }

  lemma CopyPhase(l: Layout, s: State, a: Spec)
    requires Inv(l, s, a) && Enabled(l, s, CopyBlock)
    ensures PhaseOk(l, Next(l, s, CopyBlock), a)
  {}

  lemma CopyStep(l: Layout, s: State, a: Spec)
    requires Inv(l, s, a) && Enabled(l, s, CopyBlock)
    ensures Inv(l, Next(l, s, CopyBlock), SpecNext(a, CopyBlock))
  {
    CopyPhase(l, s, a);
  }

  lemma WriteHeadStep(l: Layout, s: State, a: Spec)
    requires Inv(l, s, a) && Enabled(l, s, WriteHead)
    ensures SpecEnabled(a, WriteHead) && Inv(l, Next(l, s, WriteHead), SpecNext(a, WriteHead))
  {
    WriteHeadPhase(l, s, a);
  }

  lemma WriteHeadPhase(l: Layout, s: State, a: Spec)
    requires Inv(l, s, a) && Enabled(l, s, WriteHead)
    ensures SpecEnabled(a, WriteHead) && PhaseOk(l, Next(l, s, WriteHead), SpecNext(a, WriteHead))
  {
    var hb := PutHeader(s.mem[l.start], s.lh);
    HeaderRoundTrip(s.mem[l.start], s.lh);
    LoggedReplays(l, s.disk, s.mem, s.lh, a.pending, hb);
    var s' := Next(l, s, WriteHead);
    assert s'.disk[l.start] == hb;
  }

  lemma LoggedReplays(l: Layout, d: Disk, m: Disk, h: seq<nat>, e: Disk, hb: Block)
    requires Fits(l) && |d| == l.nblocks && HeaderOk(l, h) && HomeEq(l, m, e)
    requires forall j :: 0 <= j < |h| ==> d[l.start + j + 1] == m[h[j]]
    requires forall b :: 0 <= b < l.nblocks && b !in h ==> m[b] == d[b]
    ensures Replays(l, d[l.start := hb], h, e)
    ensures InstalledTo(l, d[l.start := hb], m[l.start := hb], h, 0, e) && HomeEq(l, m[l.start := hb], e)
  {
    assert h[0..] == h;
  }

  lemma InstallReplays(l: Layout, d: Disk, h: seq<nat>, e: Disk, t: nat)
    requires Fits(l) && Replays(l, d, h, e) && t < |h|
    ensures Replays(l, d[h[t] := d[l.start + t + 1]], h, e)
  {}

  lemma InstallsOne(l: Layout, d: Disk, m: Disk, h: seq<nat>, t: nat, e: Disk)
    requires InstalledTo(l, d, m, h, t, e) && t < |h|
    ensures InstalledTo(l, d[h[t] := e[h[t]]], m[h[t] := e[h[t]]], h, t + 1, e)
  {
    assert h[t..] == [h[t]] + h[t + 1..];
  }

  lemma InstallStep(l: Layout, s: State, a: Spec)
    requires Inv(l, s, a) && Enabled(l, s, InstallBlock)
    ensures Inv(l, Next(l, s, InstallBlock), SpecNext(a, InstallBlock))
  {
    InstallPhase(l, s, a);
  }

  lemma InstallNext(l: Layout, d: Disk, m: Disk, h: seq<nat>, t: nat, recovering: bool, e: Disk)
    requires Fits(l) && Replays(l, d, h, e) && InstallingOk(l, d, m, h, t, recovering, e) && t < |h|
    ensures m[l.start + t + 1] == e[h[t]] && d[h[t] := e[h[t]]][l.start] == d[l.start]
    ensures Replays(l, d[h[t] := e[h[t]]], h, e) &&
            InstallingOk(l, d[h[t] := e[h[t]]], m[h[t] := e[h[t]]], h, t + 1, recovering, e)
  {
    assert m[l.start + t + 1] == d[l.start + t + 1] == e[h[t]];
    InstallReplays(l, d, h, e, t);
    InstallsOne(l, d, m, h, t, e);
  }

  lemma InstallPhase(l: Layout, s: State, a: Spec)
    requires Shape(l, s, a) && HeaderOk(l, s.lh) && PhaseOk(l, s, a) && Enabled(l, s, InstallBlock)
    ensures PhaseOk(l, Next(l, s, InstallBlock), a)
  {
    var t := s.phase.installed;
    var b := s.lh[t];
    InstallNext(l, s.disk, s.mem, s.lh, t, s.phase.recovering, a.durable);
    var s' := Next(l, s, InstallBlock);
    assert s'.disk == s.disk[b := a.durable[b]] && s'.mem == s.mem[b := a.durable[b]];
    assert s'.lh == s.lh && s'.phase == s.phase.(installed := t + 1);
  }

  lemma EraseStep(l: Layout, s: State, a: Spec)
    requires Inv(l, s, a) && Enabled(l, s, EraseHead)
    ensures Inv(l, Next(l, s, EraseHead), SpecNext(a, EraseHead))
  {
    HeaderRoundTrip(s.mem[l.start], []);
    AllClosed(l, s);
    var s' := Next(l, s, EraseHead);
    forall b | 0 <= b < l.nblocks && Home(l, b)
      ensures s'.disk[b] == a.durable[b] && s'.mem[b] == s'.disk[b]
    {
      if b in s.lh {
        var j :| 0 <= j < |s.lh| && s.lh[j] == b;
      }
    }
  }

  lemma AllClosed(l: Layout, s: State)
    requires CountOpen(s.ops) == 0
    ensures Credits(l, s.ops) <= 0
    ensures forall i :: 0 <= i < |s.ops| ==> !s.ops[i].open
  {
    CreditsBound(l, s.ops);
    forall i | 0 <= i < |s.ops|
      ensures !s.ops[i].open
    {
      NoneOpen(s.ops, i);
    }
  }

  lemma QuietStep(l: Layout, s: State, e: Label, a: Spec)
    requires Inv(l, s, a) && Enabled(l, s, e) && (e.Finish? || e.ReadHead? || e.Crash?)
    ensures Inv(l, Next(l, s, e), SpecNext(a, e))
  {
    if e.Finish? {
      AllClosed(l, s);
    }
  }

  lemma StepInv(l: Layout, s: State, e: Label, a: Spec)
    requires Inv(l, s, a) && Enabled(l, s, e)
    ensures SpecEnabled(a, e) && Inv(l, Next(l, s, e), SpecNext(a, e))
  {
    match e
    case Begin => BeginStep(l, s, a);
    case Append(i) => AppendStep(l, s, i, a);
    case End(i) => EndStep(l, s, i, a);
    case CopyBlock => CopyStep(l, s, a);
    case WriteHead => WriteHeadStep(l, s, a);
    case InstallBlock => InstallStep(l, s, a);
    case EraseHead => EraseStep(l, s, a);
    case Finish => QuietStep(l, s, e, a);
    case ReadHead => QuietStep(l, s, e, a);
    case Crash => QuietStep(l, s, e, a);
    case _ => OpStep(l, s, e, a);
  }

  // ---------- the theorems ----------

  /** Every run of the log is matched by a run of the atomic store on the same labels. */
  lemma {:induction false} Simulation(l: Layout, s: State, es: seq<Label>)
    requires Sound(l) && Init(l, s) && Run(l, s, es).Some?
    ensures SpecRun(SpecInit(l, s.disk), es).Some?
    ensures Inv(l, Run(l, s, es).value, SpecRun(SpecInit(l, s.disk), es).value)
  {
    if es == [] {
      InitInv(l, s);
    } else {
      var n := |es| - 1;
      Simulation(l, s, es[..n]);
      StepInv(l, Run(l, s, es[..n]).value, es[n], SpecRun(SpecInit(l, s.disk), es[..n]).value);
    }
  }

  /**
   Crash atomicity. After every run (and so at every point of every run), with any number of crashes
   between any two block writes, recovery rebuilds exactly the blocks the atomic store has committed;
   the cache shows the pending ones unless the machine is still recovering; when no operation is
   outstanding the disk itself is the committed store. A commit never splits an operation, because
   SpecRun admits WriteHead only with no operation open.
   */
  lemma CrashAtomicity(l: Layout, s: State, es: seq<Label>)
    requires Sound(l) && Init(l, s) && Run(l, s, es).Some?
    ensures SpecRun(SpecInit(l, s.disk), es).Some?
    ensures var (t, a) := (Run(l, s, es).value, SpecRun(SpecInit(l, s.disk), es).value);
            && DiskOk(l, t.disk) && HomeEq(l, Recover(l, t.disk), a.durable)
            && (!Recovering(t) ==> HomeEq(l, t.mem, a.pending))
            && (t.phase.Running? && t.outstanding == 0 ==> t.mem == t.disk && HomeEq(l, t.disk, a.durable))
  {
    Simulation(l, s, es);
    PointSafety(l, Run(l, s, es).value, SpecRun(SpecInit(l, s.disk), es).value);
  }

  predicate Recovering(s: State) {
    s.phase.Booting? || (s.phase.Installing? && s.phase.recovering)
  }

  lemma PointSafety(l: Layout, s: State, a: Spec)
    requires Inv(l, s, a)
    ensures DiskOk(l, s.disk) && HomeEq(l, Recover(l, s.disk), a.durable)
    ensures !Recovering(s) ==> HomeEq(l, s.mem, a.pending)
    ensures s.phase.Running? && s.outstanding == 0 ==> s.mem == s.disk && HomeEq(l, s.disk, a.durable)
  {
    ReplayUnique(l, s.disk, a.durable);
    if s.phase.Running? && s.outstanding == 0 {
      AllClosed(l, s);
      assert forall b: nat :: !InFlight(s, b);
    }
  }

  /** No operation that keeps to its bound is ever stopped by a panic at the top of log_write. */
  lemma NoPanic(l: Layout, s: State, es: seq<Label>, i: nat, b: nat)
    requires Fits(l) && l.bound < MAXOPBLOCKS && Init(l, s)
    requires Run(l, s, es).Some? && MayLog(l, Run(l, s, es).value, i, b)
    ensures var t := Run(l, s, es).value;
            !Panics(l, t) && HeaderOk(l, t.lh) && |t.lh| + Credits(l, t.ops) <= Room(l)
  {
    Simulation(l, s, es);
    OpenRuns(l, Run(l, s, es).value, i, SpecRun(SpecInit(l, s.disk), es).value);
  }
}
