/**
 * nulterminate and parsecmd of sh.c: the parser's spans become C strings by
 * writing a NUL after each of them into the line itself.
 */
module ShellBuffer {
  import opened Wrappers
  import opened Shell
  import opened ShellTrees

  const NUL: char := '\0'

  /** The C string that starts at q. */
  function CString(b: string, q: nat): (t: string)
    requires q <= |b|
    decreases |b| - q
  {
    if q == |b| || b[q] == NUL then "" else [b[q]] + CString(b, q + 1)
  }

  /** The command as runcmd sees it: only the first character of each string is known. */
  function Seen(b: string, c: PCmd): (t: Cmd)
    requires Inside(b, c)
  {
    match c
    case PExec(argv) => Exec(seq(|argv|, k requires 0 <= k < |argv| => CString(b, argv[k].q)))
    case PRedir(d, file, input) => Redir(Seen(b, d), CString(b, file.q), input)
    case PPipe(l, r) => Pipe(Seen(b, l), Seen(b, r))
    case PList(l, r) => List(Seen(b, l), Seen(b, r))
    case PBack(d) => Back(Seen(b, d))
  }

  /** Every span lies within the buffer. */
  predicate Inside(b: string, c: PCmd) {
    match c
    case PExec(argv) => forall k :: 0 <= k < |argv| ==> argv[k].q <= |b| && argv[k].eq < |b|
    case PRedir(d, file, _) => Inside(b, d) && file.q <= |b| && file.eq < |b|
    case PPipe(l, r) => Inside(b, l) && Inside(b, r)
    case PList(l, r) => Inside(b, l) && Inside(b, r)
    case PBack(d) => Inside(b, d)
  }

  /** The positions nulterminate overwrites. */
  function Ends(c: PCmd): set<nat> {
    match c
    case PExec(argv) => set k: nat | k < |argv| :: argv[k].eq
    case PRedir(d, file, _) => Ends(d) + {file.eq}
    case PPipe(l, r) => Ends(l) + Ends(r)
    case PList(l, r) => Ends(l) + Ends(r)
    case PBack(d) => Ends(d)
  }

  /** b with NULs at the positions in at. */
  predicate Cut(b: string, at: set<nat>, b': string) {
    |b'| == |b| && forall k :: 0 <= k < |b| ==> b'[k] == if k in at then NUL else b[k]
  }

  method NulTerminate(buf: array<char>, c: PCmd)
    requires Inside(buf[..], c)
    modifies buf
    ensures Cut(old(buf[..]), Ends(c), buf[..])
    decreases c
  {
    match c
    case PExec(argv) =>
      for i := 0 to |argv|
        invariant Cut(old(buf[..]), set k: nat | k < i :: argv[k].eq, buf[..])
      {
        buf[argv[i].eq] := NUL;
      }
    case PRedir(d, file, _) =>
      NulTerminate(buf, d);
      buf[file.eq] := NUL;
    case PPipe(l, r) =>
      NulTerminate(buf, l);
      InsideSize(old(buf[..]), buf[..], r);
      NulTerminate(buf, r);
    case PList(l, r) =>
      NulTerminate(buf, l);
      InsideSize(old(buf[..]), buf[..], r);
      NulTerminate(buf, r);
    case PBack(d) =>
      NulTerminate(buf, d);
  }

  lemma {:induction false} InsideSize(b: string, b': string, c: PCmd)
    requires |b| == |b'| && Inside(b, c)
    ensures Inside(b', c)
  {
    match c
    case PExec(argv) =>
    case PRedir(d, _, _) => InsideSize(b, b', d);
    case PPipe(l, r) => InsideSize(b, b', l); InsideSize(b, b', r);
    case PList(l, r) => InsideSize(b, b', l); InsideSize(b, b', r);
    case PBack(d) => InsideSize(b, b', d);
  }

  // ---------- every string reads back as its token ----------

  /** A position nulterminate may overwrite: the end of the line or no word character. */
  predicate Break(s: string, k: nat) {
    k == |s| || (k < |s| && !WordChar(s[k]))
  }

  lemma {:induction false} EndsBreak(s: string, c: PCmd)
    requires Tokens(s, c)
    ensures Inside(s + [NUL], c) && forall k :: k in Ends(c) ==> Break(s, k)
  {
    match c
    case PExec(argv) =>
    case PRedir(d, _, _) => EndsBreak(s, d);
    case PPipe(l, r) => EndsBreak(s, l); EndsBreak(s, r);
    case PList(l, r) => EndsBreak(s, l); EndsBreak(s, r);
    case PBack(d) => EndsBreak(s, d);
  }

  /** A string ends at the first NUL. */
  lemma {:induction false} ReadsTo(b: string, q: nat, e: nat)
    requires q <= e < |b| && b[e] == NUL && forall k :: q <= k < e ==> b[k] != NUL
    ensures CString(b, q) == b[q..e]
    decreases e - q
  {
    if q < e {
      ReadsTo(b, q + 1, e);
    }
  }

  lemma SpanReads(s: string, at: set<nat>, b: string, w: Span)
    requires NUL !in s && OneWord(s, w) && Cut(s + [NUL], at, b) && w.eq in at && forall k :: k in at ==> Break(s, k)
    ensures CString(b, w.q) == Text(s, w)
  {
    forall k | w.q <= k < w.eq
      ensures b[k] == s[k] && b[k] != NUL
    {
      assert !Break(s, k) && s[k] in s;
    }
    ReadsTo(b, w.q, w.eq);
    assert b[w.q..w.eq] == s[w.q..w.eq];
  }

  lemma {:induction false} AllRead(s: string, at: set<nat>, b: string, c: PCmd)
    requires NUL !in s && Tokens(s, c) && Ends(c) <= at && Cut(s + [NUL], at, b) && forall k :: k in at ==> Break(s, k)
    ensures Inside(b, c) && Seen(b, c) == Words(s, c)
  {
    EndsBreak(s, c);
    InsideSize(s + [NUL], b, c);
    match c
    case PExec(argv) =>
      forall k: nat | k < |argv|
        ensures CString(b, argv[k].q) == Text(s, argv[k])
      {
        assert argv[k].eq in Ends(c);
        SpanReads(s, at, b, argv[k]);
      }
    case PRedir(d, file, _) => AllRead(s, at, b, d); SpanReads(s, at, b, file);
    case PPipe(l, r) => AllRead(s, at, b, l); AllRead(s, at, b, r);
    case PList(l, r) => AllRead(s, at, b, l); AllRead(s, at, b, r);
    case PBack(d) => AllRead(s, at, b, d);
  }

  /** parsecmd on a line s held, with its NUL, in buf: a syntax panic, or the tree runcmd reads. */
  method ParseCommand(buf: array<char>, s: string) returns (r: Option<PCmd>)
    requires NUL !in s && buf[..] == s + [NUL]
    modifies buf
    ensures r.Some? <==> Parse(s).Some?
    ensures r.Some? ==> Inside(buf[..], r.value) && Seen(buf[..], r.value) == Parse(s).value
    ensures r.None? ==> buf[..] == old(buf[..])
  {
    LineTokens(s, 0);
    var got := ParseLine(s, 0);
    if got.None? {
      return None;
    }
    var (c, i) := got.value;
    var b, j := PeekAt(s, i, {});
    if j != |s| {
      return None;
    }
    EndsBreak(s, c);
    NulTerminate(buf, c);
    AllRead(s, Ends(c), buf[..], c);
    return Some(c);
  }
}
