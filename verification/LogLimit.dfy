/**
 How many blocks an operation may log. param.h advertises MAXOPBLOCKS; with the log size mkfs
 writes, log_write is free of panics exactly when every operation stays below that.
 */
module LogLimit {
  import opened Words
  import opened Wrappers
  import opened Blocks
  import opened LogProtocol
  import opened LogSafety

  /** In every reachable state, an operation within its bound passes the tests at the top of log_write. */
  ghost predicate PanicFree(l: Layout) {
    forall s, es, i, b ::
      Init(l, s) && Run(l, s, es).Some? && MayLog(l, Run(l, s, es).value, i, b) ==> !Panics(l, Run(l, s, es).value)
  }

  /** A log of at least LOGSIZE blocks, with more blocks than that after it. */
  predicate Wide(l: Layout) {
    l.size >= LOGSIZE && l.start + l.size + LOGSIZE < l.nblocks <= U32
  }

  lemma ReservationExact(l: Layout)
    requires Wide(l)
    ensures PanicFree(l) <==> l.bound < MAXOPBLOCKS
  {
    if l.bound < MAXOPBLOCKS {
      forall s, es, i, b | Init(l, s) && Run(l, s, es).Some? && MayLog(l, Run(l, s, es).value, i, b)
        ensures !Panics(l, Run(l, s, es).value)
      {
        NoPanic(l, s, es, i, b);
      }
    } else {
      var s, es, b := Overrun(l);
      assert MayLog(l, Run(l, s, es).value, 0, b);
    }
  }

  /** After every run, recovery finds exactly what was committed. */
  ghost predicate Atomic(l: Layout) {
    forall s, es :: Init(l, s) && Run(l, s, es).Some? ==> Intact(l, s, es)
  }

  ghost predicate Intact(l: Layout, s: State, es: seq<Label>)
    requires Init(l, s) && Run(l, s, es).Some?
  {
    && DiskOk(l, Run(l, s, es).value.disk) && SpecRun(SpecInit(l, s.disk), es).Some?
    && HomeEq(l, Recover(l, Run(l, s, es).value.disk), SpecRun(SpecInit(l, s.disk), es).value.durable)
  }

  /** With the log mkfs makes, crashes are survived exactly when every operation stays below MAXOPBLOCKS. */
  lemma AtomicityExact(l: Layout)
    requires Wide(l) && l.size == LOGSIZE
    ensures Atomic(l) <==> l.bound < MAXOPBLOCKS
  {
    if l.bound < MAXOPBLOCKS {
      forall s, es | Init(l, s) && Run(l, s, es).Some?
        ensures Intact(l, s, es)
      {
        CrashAtomicity(l, s, es);
      }
    } else {
      var s, es, v := TornCommit(l);
      if Intact(l, s, es) {
        Uncommitted(SpecInit(l, s.disk), es);
        assert false;
      }
    }
  }

  // ---------- runs that overrun the log ----------

  lemma Snoc(l: Layout, s: State, es: seq<Label>, e: Label)
    requires Run(l, s, es).Some? && Enabled(l, Run(l, s, es).value, e)
    ensures Run(l, s, es + [e]) == Some(Next(l, Run(l, s, es).value, e))
  {
    assert (es + [e])[..|es|] == es;
  }

  /** The header entries that the test in log_write lets through. */
  function Slots(l: Layout): nat {
    if l.size > LOGSIZE then LOGSIZE else LOGSIZE - 1
  }

  /** The n-th block after the log. */
  function Beyond(l: Layout, n: nat): nat {
    l.start + l.size + n
  }

  /** No header, and nothing in any home block. */
  predicate Empty(l: Layout, d: Disk) {
    |d| == l.nblocks && l.start < |d| && Get32(d[l.start], 0) == 0 &&
    forall b :: 0 <= b < |d| && Home(l, b) ==> d[b] == Zeroed()
  }

  /** n blocks logged, all of them the first n after the log area; nobody holds a buffer. */
  predicate Quiet(l: Layout, t: State, n: nat) {
    t.phase.Running? && |t.lh| == n && (forall b <- t.lh :: b < Beyond(l, n)) && t.mem == t.disk && Empty(l, t.disk) &&
    forall o <- t.ops :: o.held == {} && o.unlogged == {} && o.checked.None?
  }

  lemma LogOnce(l: Layout, t: State, i: nat, n: nat, b: nat) returns (t1: State, t2: State, t3: State, u: State)
    requires Wide(l) && n < Slots(l) && b == Beyond(l, n)
    requires Quiet(l, t, n) && Open(t, i) && t.outstanding >= 1 && |t.ops[i].logged| < l.bound
    ensures Enabled(l, t, Lock(i, b)) && t1 == Next(l, t, Lock(i, b))
    ensures Enabled(l, t1, Check(i, b)) && t2 == Next(l, t1, Check(i, b))
    ensures Enabled(l, t2, Append(i)) && t3 == Next(l, t2, Append(i))
    ensures Enabled(l, t3, Unlock(i, b)) && u == Next(l, t3, Unlock(i, b))
    ensures Quiet(l, u, n + 1) && u.outstanding == t.outstanding && Open(u, i) && b in u.ops[i].logged
    ensures |u.ops[i].logged| <= |t.ops[i].logged| + 1 && u.ops == t.ops[i := u.ops[i]]
  {
    var o := t.ops[i];
    assert o in t.ops;
    t1 := t.(ops := t.ops[i := o.(held := {b})]);
    t2 := t.(ops := t.ops[i := o.(held := {b}, checked := Some(b))]);
    t3 := t.(ops := t.ops[i := o.(held := {b}, logged := o.logged + {b})], lh := t.lh + [b]);
    u := t3.(ops := t.ops[i := o.(logged := o.logged + {b})]);
    assert o.held == {} && o.unlogged == {};
    assert {b} - {b} == {} && {} + {b} == {b};
    assert t1 == Next(l, t, Lock(i, b));
    assert t2 == Next(l, t1, Check(i, b));
    assert t3 == Next(l, t2, Append(i));
  }

  /** Operation i of state t has logged k more blocks in u, the last of them `last`. */
  predicate Forward(l: Layout, t: State, u: State, i: nat, n: nat, k: nat, last: nat) {
    && Quiet(l, u, n + k) && u.outstanding == t.outstanding && Open(t, i) && Open(u, i)
    && (k > 0 ==> last == Beyond(l, n + k - 1) && last in u.ops[i].logged)
    && |u.ops[i].logged| <= |t.ops[i].logged| + k && u.ops == t.ops[i := u.ops[i]]
  }

  lemma Onward(l: Layout, t: State, u: State, w: State, i: nat, n: nat, k: nat, p: nat)
    requires Open(t, i) && Open(u, i) && |u.ops[i].logged| <= |t.ops[i].logged| + k && u.ops == t.ops[i := u.ops[i]]
    requires u.outstanding == t.outstanding && p == n + k && Forward(l, u, w, i, p, 1, Beyond(l, p))
    ensures Forward(l, t, w, i, n, k + 1, Beyond(l, p))
  {
  }

  lemma LogOne(l: Layout, s: State, es: seq<Label>, i: nat, n: nat) returns (fs: seq<Label>)
    requires Wide(l) && n < Slots(l) && Run(l, s, es).Some? && WriteHead !in es
    requires var t := Run(l, s, es).value;
             Quiet(l, t, n) && Open(t, i) && t.outstanding >= 1 && |t.ops[i].logged| < l.bound
    ensures Run(l, s, fs).Some? && WriteHead !in fs
    ensures Forward(l, Run(l, s, es).value, Run(l, s, fs).value, i, n, 1, Beyond(l, n))
  {
    var b := Beyond(l, n);
    var t1, t2, t3, u := LogOnce(l, Run(l, s, es).value, i, n, b);
    fs := Four(l, s, es, t1, t2, t3, u, Lock(i, b), Check(i, b), Append(i), Unlock(i, b));
  }

  lemma {:induction false} LogMany(l: Layout, s: State, es: seq<Label>, i: nat, n: nat, k: nat)
    returns (fs: seq<Label>, last: nat)
    requires Wide(l) && n + k <= Slots(l) && Run(l, s, es).Some? && WriteHead !in es
    requires var t := Run(l, s, es).value;
             Quiet(l, t, n) && Open(t, i) && t.outstanding >= 1 && |t.ops[i].logged| + k <= l.bound
    ensures Run(l, s, fs).Some? && WriteHead !in fs
    ensures Forward(l, Run(l, s, es).value, Run(l, s, fs).value, i, n, k, last)
    decreases k
  {
    if k == 0 {
      fs, last := es, 0;
    } else {
      var p := n + k - 1;
      var gs, _ := LogMany(l, s, es, i, n, k - 1);
      fs := LogOne(l, s, gs, i, p);
      last := Beyond(l, p);
      Onward(l, Run(l, s, es).value, Run(l, s, gs).value, Run(l, s, fs).value, i, n, k - 1, p);
    }
  }

  lemma Boot(l: Layout) returns (s: State, es: seq<Label>)
    requires Wide(l)
    ensures Init(l, s) && Empty(l, s.disk) && es == [ReadHead, EraseHead] && Run(l, s, es).Some?
    ensures var t := Run(l, s, es).value; Quiet(l, t, 0) && t.ops == [] && t.outstanding == 0
  {
    var d: Disk := seq(l.nblocks, i => Zeroed());
    ZeroedWords(0);
    s := State(d, d, [], [], 0, Booting);
    Snoc(l, s, [], ReadHead);
    Snoc(l, s, [ReadHead], EraseHead);
    assert [ReadHead] + [EraseHead] == [ReadHead, EraseHead];
    es := [ReadHead, EraseHead];
    HeaderRoundTrip(Zeroed(), []);
  }

  /** Operation 0 stays open while 1 logs ten blocks and ends; then 2 begins. */
  lemma FirstTen(l: Layout) returns (s: State, es: seq<Label>)
    requires Wide(l) && l.bound >= MAXOPBLOCKS
    ensures Init(l, s) && Empty(l, s.disk) && Run(l, s, es).Some? && WriteHead !in es
    ensures var t := Run(l, s, es).value;
            && Quiet(l, t, 10) && t.outstanding == 2 && |t.ops| == 3 && Open(t, 0) && Open(t, 2)
            && t.ops[0].logged == t.ops[2].logged == {}
  {
    s, es := Boot(l);
    es := One(l, s, es, Begin);
    es := One(l, s, es, Begin);
    var last;
    es, last := LogMany(l, s, es, 1, 0, 10);
    ghost var t := Run(l, s, es).value;
    assert t.ops[1] in t.ops;
    es := One(l, s, es, End(1));
    es := One(l, s, es, Begin);
  }

  /** Then 2 logs k blocks and 0 logs m. */
  lemma Crowd(l: Layout, k: nat, m: nat) returns (s: State, es: seq<Label>, last: nat)
    requires Wide(l) && l.bound >= MAXOPBLOCKS && k <= 10 && 0 < m <= 10 && 10 + k + m <= Slots(l)
    ensures Init(l, s) && Empty(l, s.disk) && Run(l, s, es).Some? && WriteHead !in es
    ensures var t := Run(l, s, es).value;
            && Quiet(l, t, 10 + k + m) && t.outstanding == 2 && |t.ops| == 3 && Open(t, 0) && Open(t, 2)
            && |t.ops[0].logged| <= m && |t.ops[2].logged| <= k && last in t.ops[0].logged
    ensures last == Beyond(l, 10 + k + m - 1)
  {
    s, es := FirstTen(l);
    es, last := LogMany(l, s, es, 2, 10, k);
    es, last := LogMany(l, s, es, 0, 10 + k, m);
  }

  /** Operation 0 finds the header full when it comes to log its tenth block, or to log it once more. */
  lemma Overrun(l: Layout) returns (s: State, es: seq<Label>, b: nat)
    requires Wide(l) && l.bound >= MAXOPBLOCKS
    ensures Init(l, s) && Run(l, s, es).Some?
    ensures MayLog(l, Run(l, s, es).value, 0, b) && Panics(l, Run(l, s, es).value)
  {
    s, es, b := Crowd(l, 10, Slots(l) - 20);
    var logged := Run(l, s, es).value.ops[0].logged;
    if l.size > LOGSIZE {
      assert logged + {b} == logged;
    } else {
      b := Beyond(l, 29);
    }
    es := One(l, s, es, Lock(0, b));
  }

  // ---------- two unlocked tests ----------

  /** Operations 0 and 2 hold blocks b and c, and 2 has put v into c. */
  predicate Ready(l: Layout, t: State, n: nat, b: nat, c: nat, v: Block) {
    && t.phase.Running? && |t.lh| == n && b !in t.lh && c !in t.lh && b != c && Home(l, b) && Home(l, c)
    && (forall b <- t.lh :: b < l.nblocks)
    && |t.disk| == l.nblocks && Empty(l, t.disk) && t.mem == t.disk[c := v]
    && t.outstanding == 2 && |t.ops| == 3 && t.ops[0].open && t.ops[2].open
    && t.ops[0].held == {b} && t.ops[2].held == {c} && t.ops[0].unlogged == {} && t.ops[2].unlogged == {c}
    && t.ops[0].checked.None? && t.ops[2].checked.None? && |t.ops[0].logged| < l.bound && |t.ops[2].logged| < l.bound
  }

  lemma GetReady(l: Layout, v: Block) returns (s: State, es: seq<Label>)
    requires Wide(l) && l.bound >= MAXOPBLOCKS
    ensures Init(l, s) && Empty(l, s.disk) && Run(l, s, es).Some? && WriteHead !in es
    ensures Ready(l, Run(l, s, es).value, 28, Beyond(l, 28), Beyond(l, 29), v)
  {
    var b, c := Beyond(l, 28), Beyond(l, 29);
    var last;
    s, es, last := Crowd(l, 9, 9);
    ghost var t := Run(l, s, es).value;
    assert t.ops[0] in t.ops && t.ops[1] in t.ops && t.ops[2] in t.ops;
    es := One(l, s, es, Lock(0, b));
    es := One(l, s, es, Lock(2, c));
    es := One(l, s, es, Modify(2, c, v));
  }

  /** Both pass the test at the same length of the header, and both append. */
  lemma RaceLog(l: Layout, t: State, n: nat, b: nat, c: nat, v: Block)
    returns (t1: State, t2: State, t3: State, t4: State)
    requires Ready(l, t, n, b, c, v) && n < LOGSIZE && n < l.size - 1
    ensures Enabled(l, t, Check(0, b)) && t1 == Next(l, t, Check(0, b))
    ensures Enabled(l, t1, Check(2, c)) && t2 == Next(l, t1, Check(2, c))
    ensures Enabled(l, t2, Append(0)) && t3 == Next(l, t2, Append(0))
    ensures Enabled(l, t3, Append(2)) && t4 == Next(l, t3, Append(2))
    ensures Logged(t4, b, c) && t4.lh == t.lh + [b, c] && t4.disk == t.disk && t4.mem == t.mem
  {
    var o, p := t.ops[0], t.ops[2];
    t1 := t.(ops := t.ops[0 := o.(checked := Some(b))]);
    t2 := t1.(ops := t1.ops[2 := p.(checked := Some(c))]);
    assert {} - {b} == {} && {c} - {c} == {};
    t3 := t2.(lh := t.lh + [b], ops := t2.ops[0 := o.(logged := o.logged + {b})]);
    t4 := t3.(lh := t.lh + [b] + [c], ops := t3.ops[2 := p.(logged := p.logged + {c}, unlogged := {})]);
    assert t1 == Next(l, t, Check(0, b));
    assert t2 == Next(l, t1, Check(2, c));
    assert t3 == Next(l, t2, Append(0));
    assert t4 == Next(l, t3, Append(2));
  }

  /** Both are ready to unlock and end. */
  predicate Logged(t: State, b: nat, c: nat) {
    && t.phase.Running? && t.outstanding == 2 && |t.ops| == 3 && t.ops[0].open && t.ops[2].open
    && t.ops[0].held == {b} && t.ops[2].held == {c} && t.ops[0].unlogged == t.ops[2].unlogged == {}
    && t.ops[0].checked.None? && t.ops[2].checked.None?
  }

  lemma RaceEnd(l: Layout, t: State, b: nat, c: nat) returns (t1: State, t2: State, t3: State, t4: State)
    requires Logged(t, b, c)
    ensures Enabled(l, t, Unlock(0, b)) && t1 == Next(l, t, Unlock(0, b))
    ensures Enabled(l, t1, Unlock(2, c)) && t2 == Next(l, t1, Unlock(2, c))
    ensures Enabled(l, t2, End(0)) && t3 == Next(l, t2, End(0))
    ensures Enabled(l, t3, End(2)) && t4 == Next(l, t3, End(2))
    ensures t4.phase == CopyingLog(0) && t4.lh == t.lh && t4.disk == t.disk && t4.mem == t.mem
  {
    t1 := Next(l, t, Unlock(0, b));
    t2 := Next(l, t1, Unlock(2, c));
    t3 := Next(l, t2, End(0));
    t4 := Next(l, t3, End(2));
  }

  lemma Race(l: Layout, s: State, es: seq<Label>, n: nat, b: nat, c: nat, v: Block) returns (fs: seq<Label>)
    requires Run(l, s, es).Some? && WriteHead !in es && Ready(l, Run(l, s, es).value, n, b, c, v)
    requires n < LOGSIZE && n < l.size - 1
    ensures Run(l, s, fs).Some? && WriteHead !in fs
    ensures var (t, u) := (Run(l, s, es).value, Run(l, s, fs).value);
            && u.phase == CopyingLog(0) && u.lh == t.lh + [b, c] && u.disk == t.disk && u.mem == t.mem
            && forall b <- u.lh :: b < l.nblocks
  {
    var t1, t2, t3, t4 := RaceLog(l, Run(l, s, es).value, n, b, c, v);
    fs := Four(l, s, es, t1, t2, t3, t4, Check(0, b), Check(2, c), Append(0), Append(2));
    var t5, t6, t7, t8 := RaceEnd(l, t4, b, c);
    fs := Four(l, s, fs, t5, t6, t7, t8, Unlock(0, b), Unlock(2, c), End(0), End(2));
  }

  lemma Four(l: Layout, s: State, es: seq<Label>, t1: State, t2: State, t3: State, t4: State,
             a: Label, b: Label, c: Label, d: Label) returns (fs: seq<Label>)
    requires Run(l, s, es).Some? && WriteHead !in es && a != WriteHead && b != WriteHead && c != WriteHead &&
             d != WriteHead
    requires Enabled(l, Run(l, s, es).value, a) && t1 == Next(l, Run(l, s, es).value, a)
    requires Enabled(l, t1, b) && t2 == Next(l, t1, b)
    requires Enabled(l, t2, c) && t3 == Next(l, t2, c)
    requires Enabled(l, t3, d) && t4 == Next(l, t3, d)
    ensures Run(l, s, fs) == Some(t4) && WriteHead !in fs
  {
    fs := One(l, s, es, a);
    fs := One(l, s, fs, b);
    fs := One(l, s, fs, c);
    fs := One(l, s, fs, d);
  }

  lemma One(l: Layout, s: State, es: seq<Label>, e: Label) returns (fs: seq<Label>)
    requires Run(l, s, es).Some? && Enabled(l, Run(l, s, es).value, e) && WriteHead !in es && e != WriteHead
    ensures Run(l, s, fs) == Some(Next(l, Run(l, s, es).value, e)) && WriteHead !in fs
  {
    Snoc(l, s, es, e);
    fs := es + [e];
  }

  lemma CopyOne(l: Layout, t: State, c: nat)
    requires t.phase.CopyingLog? && t.phase.copied < |t.lh| && t.lh[t.phase.copied] < |t.mem| == |t.disk|
    requires l.start + t.phase.copied + 1 < c < |t.mem|
    ensures Enabled(l, t, CopyBlock)
    ensures var u := Next(l, t, CopyBlock);
            && u.phase == CopyingLog(t.phase.copied + 1) && u.lh == t.lh && |u.disk| == |u.mem| == |t.disk|
            && u.disk[l.start] == t.disk[l.start] && u.mem[c] == t.mem[c]
  {
  }

  /** k blocks copied by write_log: the header stays, and so does a cached block that is not a target. */
  lemma {:induction false} CopyMany(l: Layout, s: State, es: seq<Label>, k: nat, c: nat) returns (fs: seq<Label>)
    requires Run(l, s, es).Some? && WriteHead !in es
    requires var t := Run(l, s, es).value;
             && t.phase == CopyingLog(0) && k <= |t.lh| && |t.disk| == |t.mem| && l.start + k < |t.disk|
             && (forall b <- t.lh :: b < |t.mem|) && l.start + k < c < |t.mem|
    ensures Run(l, s, fs).Some? && WriteHead !in fs
    ensures var (t, u) := (Run(l, s, es).value, Run(l, s, fs).value);
            && u.phase == CopyingLog(k) && u.lh == t.lh && |u.disk| == |u.mem| == |t.disk|
            && u.disk[l.start] == t.disk[l.start] && u.mem[c] == t.mem[c]
  {
    fs := es;
    if k > 0 {
      ghost var t := Run(l, s, es).value;
      fs := CopyMany(l, s, es, k - 1, c);
      assert t.lh[k - 1] in t.lh;
      CopyOne(l, Run(l, s, fs).value, c);
      Snoc(l, s, fs, CopyBlock);
      fs := fs + [CopyBlock];
    }
  }

  /**
   Two operations pass the test with 28 entries in the header and leave 30 there; write_log copies the last
   of them into the block after the log. A crash then leaves that block changed although nothing was committed.
   */
  lemma TornCommit(l: Layout) returns (s: State, es: seq<Label>, v: Block)
    requires Wide(l) && l.size == LOGSIZE && l.bound >= MAXOPBLOCKS
    ensures Init(l, s) && Run(l, s, es).Some? && WriteHead !in es
    ensures |Run(l, s, es).value.lh| == LOGSIZE && DiskOk(l, Run(l, s, es).value.disk)
    ensures Home(l, Beyond(l, 0)) &&
            Recover(l, s.disk)[Beyond(l, 0)] != Recover(l, Run(l, s, es).value.disk)[Beyond(l, 0)]
  {
    v := Zeroed()[0 := 1];
    var c := Beyond(l, 29);
    s, es := GetReady(l, v);
    es := Race(l, s, es, 28, Beyond(l, 28), c, v);
    es := CopyMany(l, s, es, 29, c);
    var t := Run(l, s, es).value;
    LastCopy(l, t, c, v);
    es := One(l, s, es, CopyBlock);
    var d := Next(l, t, CopyBlock).disk;
    NoHeader(l, s.disk);
    NoHeader(l, d);
    assert s.disk[Beyond(l, 0)] == Zeroed() && d[Beyond(l, 0)] == v;
    assert v[0] == 1 && Zeroed()[0] == 0;
  }

  lemma LastCopy(l: Layout, t: State, c: nat, v: Block)
    requires Wide(l) && l.size == LOGSIZE && t.phase == CopyingLog(29) && |t.lh| == 30 && t.lh[29] == c < l.nblocks
    requires |t.disk| == |t.mem| == l.nblocks && t.mem[c] == v && Get32(t.disk[l.start], 0) == 0
    ensures Enabled(l, t, CopyBlock)
    ensures var u := Next(l, t, CopyBlock);
            u.lh == t.lh && u.disk == t.disk[Beyond(l, 0) := v] && Get32(u.disk[l.start], 0) == 0
  {
  }

  lemma NoHeader(l: Layout, d: Disk)
    requires Wide(l) && |d| == l.nblocks && Get32(d[l.start], 0) == 0
    ensures DiskOk(l, d) && Recover(l, d) == d
  {
  }

  /** Without a header write nothing is committed. */
  lemma {:induction false} Uncommitted(a: Spec, es: seq<Label>)
    requires WriteHead !in es && SpecRun(a, es).Some?
    ensures SpecRun(a, es).value.durable == a.durable
  {
    if es != [] {
      Uncommitted(a, es[..|es| - 1]);
    }
  }
}
