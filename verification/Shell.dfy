/** The command parser of sh.c: tokens, recursive descent, and the trees it builds. */
module Shell {
  import opened Wrappers

  const MAXARGS: nat := 10

  predicate White(c: char) {
    c == ' ' || c == '\t' || c == '\r' || c == '\n' || c == '\U{0B}'
  }

  predicate Symbol(c: char) {
    c == '<' || c == '|' || c == '>' || c == '&' || c == ';' || c == '(' || c == ')'
  }

  predicate WordChar(c: char) {
    !White(c) && !Symbol(c)
  }

  // ---------- tokens ----------

  function Skip(s: string, i: nat): (j: nat)
    requires i <= |s|
    ensures i <= j <= |s| && (j < |s| ==> !White(s[j])) && (i < |s| && !White(s[i]) ==> j == i)
    decreases |s| - i
  {
    if i < |s| && White(s[i]) then Skip(s, i + 1) else i
  }

  function WordEnd(s: string, i: nat): (j: nat)
    requires i <= |s|
    ensures i <= j <= |s| && (j < |s| ==> !WordChar(s[j])) && forall k :: i <= k < j ==> WordChar(s[k])
    decreases |s| - i
  {
    if i < |s| && WordChar(s[i]) then WordEnd(s, i + 1) else i
  }

  /** gettoken's result: its code, the text from q to eq, and the cursor it leaves. */
  datatype Token = Token(kind: char, q: nat, eq: nat, next: nat)

  function GetToken(s: string, i: nat): (t: Token)
    requires i <= |s|
    ensures i <= t.q <= t.eq <= t.next <= |s|
    ensures Skip(s, i) < |s| ==> t.next > Skip(s, i)
    ensures Skip(s, t.next) == t.next
    ensures t.kind == 'a' ==>
              t.q < t.eq && (t.eq < |s| ==> !WordChar(s[t.eq])) && forall k :: t.q <= k < t.eq ==> WordChar(s[k])
  {
    var q := Skip(s, i);
    if q == |s| then Token('\0', q, q, q)
    else if s[q] == '>' && q + 1 < |s| && s[q + 1] == '>' then Token('+', q, q + 2, Skip(s, q + 2))
    else if Symbol(s[q]) then Token(s[q], q, q + 1, Skip(s, q + 1))
    else
      var eq := WordEnd(s, q);
      Token('a', q, eq, Skip(s, eq))
  }

  predicate Peek(s: string, i: nat, toks: set<char>)
    requires i <= |s|
  {
    var j := Skip(s, i);
    j < |s| && s[j] in toks
  }

  // ---------- trees ----------

  /** argv[i] and eargv[i]: a stretch of the input buffer. */
  datatype Span = Span(q: nat, eq: nat)

  datatype Rd = Rd(file: Span, input: bool)

  /** A parsed command; its strings are still stretches of the buffer. */
  datatype PCmd =
    | PExec(argv: seq<Span>)
    | PRedir(cmd: PCmd, file: Span, input: bool)
    | PPipe(left: PCmd, right: PCmd)
    | PList(left: PCmd, right: PCmd)
    | PBack(cmd: PCmd)

  /** redircmd applied once per redirection, the first innermost. */
  function Wrap(c: PCmd, rs: seq<Rd>): PCmd {
    if rs == [] then c else PRedir(Wrap(c, rs[..|rs| - 1]), rs[|rs| - 1].file, rs[|rs| - 1].input)
  }

  // ---------- the grammar ----------

  type Parsed<T> = Option<(T, nat)>

  /** parseredirs: the redirections from i on. */
  function Redirs(s: string, i: nat, rs: seq<Rd>): (r: Parsed<seq<Rd>>)
    requires i <= |s|
    ensures r.Some? ==> i <= r.value.1 <= |s|
    decreases |s| - i
  {
    if !Peek(s, i, {'<', '>'}) then Some((rs, Skip(s, i)))
    else
      var t := GetToken(s, i);
      var f := GetToken(s, t.next);
      if f.kind != 'a' then None else Redirs(s, f.next, rs + [Rd(Span(f.q, f.eq), t.kind == '<')])
  }

  /** The loop of parseexec. */
  function Args(s: string, i: nat, argv: seq<Span>, rs: seq<Rd>): (r: Parsed<PCmd>)
    requires i <= |s|
    ensures r.Some? ==> i <= r.value.1 <= |s|
    decreases |s| - i
  {
    if Peek(s, i, {'|', ')', '&', ';'}) then Some((Wrap(PExec(argv), rs), Skip(s, i)))
    else
      var t := GetToken(s, i);
      if t.kind == '\0' then Some((Wrap(PExec(argv), rs), t.next))
      else if t.kind != 'a' || |argv| + 1 >= MAXARGS then None
      else
        match Redirs(s, t.next, rs)
        case None => None
        case Some((rs', j)) => Args(s, j, argv + [Span(t.q, t.eq)], rs')
  }

  function Simple(s: string, i: nat): (r: Parsed<PCmd>)
    requires i <= |s|
    ensures r.Some? ==> i <= r.value.1 <= |s|
    decreases |s| - i, 1
  {
    if Peek(s, i, {'('}) then Block(s, i)
    else
      match Redirs(s, i, [])
      case None => None
      case Some((rs, j)) => Args(s, j, [], rs)
  }

  function Block(s: string, i: nat): (r: Parsed<PCmd>)
    requires i <= |s| && Peek(s, i, {'('})
    ensures r.Some? ==> i <= r.value.1 <= |s|
    decreases |s| - i, 0
  {
    match Line(s, GetToken(s, i).next)
    case None => None
    case Some((c, j)) =>
      if !Peek(s, j, {')'}) then None
      else
        match Redirs(s, GetToken(s, j).next, [])
        case None => None
        case Some((rs, k)) => Some((Wrap(c, rs), k))
  }

  function PipeLine(s: string, i: nat): (r: Parsed<PCmd>)
    requires i <= |s|
    ensures r.Some? ==> i <= r.value.1 <= |s|
    decreases |s| - i, 2
  {
    match Simple(s, i)
    case None => None
    case Some((c, j)) =>
      if !Peek(s, j, {'|'}) then Some((c, Skip(s, j)))
      else
        match PipeLine(s, GetToken(s, j).next)
        case None => None
        case Some((d, k)) => Some((PPipe(c, d), k))
  }

  /** The while loop of parseline. */
  function Backs(s: string, i: nat, c: PCmd): (r: (PCmd, nat))
    requires i <= |s|
    ensures i <= r.1 <= |s|
    decreases |s| - i
  {
    if Peek(s, i, {'&'}) then Backs(s, GetToken(s, i).next, PBack(c)) else (c, Skip(s, i))
  }

  function Line(s: string, i: nat): (r: Parsed<PCmd>)
    requires i <= |s|
    ensures r.Some? ==> i <= r.value.1 <= |s|
    decreases |s| - i, 3
  {
    match PipeLine(s, i)
    case None => None
    case Some((c0, j0)) =>
      var (c, j) := Backs(s, j0, c0);
      if !Peek(s, j, {';'}) then Some((c, Skip(s, j)))
      else
        match Line(s, GetToken(s, j).next)
        case None => None
        case Some((d, k)) => Some((PList(c, d), k))
  }

  /** parsecmd: a whole line, or a syntax panic. */
  function ParseCmd(s: string): Option<PCmd> {
    match Line(s, 0)
    case None => None
    case Some((c, i)) => if Skip(s, i) == |s| then Some(c) else None
  }

  // ---------- the parser of sh.c ----------

  method SkipWhite(s: string, i: nat) returns (j: nat)
    requires i <= |s|
    ensures j == Skip(s, i)
  {
    j := i;
    while j < |s| && White(s[j])
      invariant i <= j <= |s| && Skip(s, j) == Skip(s, i)
    {
      j := j + 1;
    }
  }

  method NextToken(s: string, i: nat) returns (t: Token)
    requires i <= |s|
    ensures t == GetToken(s, i)
  {
    var q := SkipWhite(s, i);
    var eq, kind := q, '\0';
    if q < |s| {
      kind := s[q];
      if Symbol(kind) {
        eq := q + 1;
        if kind == '>' && eq < |s| && s[eq] == '>' {
          kind, eq := '+', eq + 1;
        }
      } else {
        kind := 'a';
        while eq < |s| && WordChar(s[eq])
          invariant q <= eq <= |s| && WordEnd(s, eq) == WordEnd(s, q)
        {
          eq := eq + 1;
        }
      }
    }
    var next := SkipWhite(s, eq);
    t := Token(kind, q, eq, next);
  }

  /** peek also moves the cursor past white space. */
  method PeekAt(s: string, i: nat, toks: set<char>) returns (b: bool, j: nat)
    requires i <= |s|
    ensures b == Peek(s, i, toks) && j == Skip(s, i)
  {
    j := SkipWhite(s, i);
    b := j < |s| && s[j] in toks;
  }

  lemma RedirsSkip(s: string, i: nat, rs: seq<Rd>)
    requires i <= |s|
    ensures Redirs(s, Skip(s, i), rs) == Redirs(s, i, rs)
  {
    assert Peek(s, Skip(s, i), {'<', '>'}) == Peek(s, i, {'<', '>'});
    assert GetToken(s, Skip(s, i)) == GetToken(s, i);
  }

  method ParseRedirs(s: string, i: nat, rs0: seq<Rd>) returns (r: Parsed<seq<Rd>>)
    requires i <= |s|
    ensures r == Redirs(s, i, rs0)
  {
    var rs := rs0;
    RedirsSkip(s, i, rs);
    var b, j := PeekAt(s, i, {'<', '>'});
    while b
      invariant j <= |s| && Skip(s, j) == j && b == Peek(s, j, {'<', '>'})
      invariant Redirs(s, j, rs) == Redirs(s, i, rs0)
      decreases |s| - j, b
    {
      var t := NextToken(s, j);
      var f := NextToken(s, t.next);
      if f.kind != 'a' {
        return None;
      }
      rs := rs + [Rd(Span(f.q, f.eq), t.kind == '<')];
      b, j := PeekAt(s, f.next, {'<', '>'});
    }
    return Some((rs, j));
  }

  method ParseExec(s: string, i: nat) returns (r: Parsed<PCmd>)
    requires i <= |s|
    ensures r == Simple(s, i)
    decreases |s| - i, 1
  {
    var paren, i' := PeekAt(s, i, {'('});
    if paren {
      r := ParseBlock(s, i);
      return;
    }
    var argv := [];
    var got := ParseRedirs(s, i, []);
    if got.None? {
      return None;
    }
    var (rs, j) := got.value;
    while true
      invariant i <= j <= |s| && Args(s, j, argv, rs) == Simple(s, i)
      decreases |s| - j
    {
      var stop, j' := PeekAt(s, j, {'|', ')', '&', ';'});
      if stop {
        return Some((Wrap(PExec(argv), rs), j'));
      }
      var t := NextToken(s, j);
      if t.kind == '\0' {
        return Some((Wrap(PExec(argv), rs), t.next));
      }
      if t.kind != 'a' || |argv| + 1 >= MAXARGS {
        return None;
      }
      argv := argv + [Span(t.q, t.eq)];
      got := ParseRedirs(s, t.next, rs);
      if got.None? {
        return None;
      }
      rs, j := got.value.0, got.value.1;
    }
  }

  method ParseBlock(s: string, i: nat) returns (r: Parsed<PCmd>)
    requires i <= |s| && Peek(s, i, {'('})
    ensures r == Block(s, i)
    decreases |s| - i, 0
  {
    var t := NextToken(s, i);
    var body := ParseLine(s, t.next);
    if body.None? {
      return None;
    }
    var (c, j) := body.value;
    var closed, j' := PeekAt(s, j, {')'});
    if !closed {
      return None;
    }
    t := NextToken(s, j);
    var got := ParseRedirs(s, t.next, []);
    if got.None? {
      return None;
    }
    return Some((Wrap(c, got.value.0), got.value.1));
  }

  method ParsePipe(s: string, i: nat) returns (r: Parsed<PCmd>)
    requires i <= |s|
    ensures r == PipeLine(s, i)
    decreases |s| - i, 2
  {
    r := ParseExec(s, i);
    if r.Some? {
      var (c, j) := r.value;
      var bar, j' := PeekAt(s, j, {'|'});
      if !bar {
        return Some((c, j'));
      }
      var t := NextToken(s, j);
      r := ParsePipe(s, t.next);
      if r.Some? {
        r := Some((PPipe(c, r.value.0), r.value.1));
      }
    }
  }

  /** parseline's loop over '&'. */
  method ParseBacks(s: string, i: nat, c0: PCmd) returns (c: PCmd, j: nat)
    requires i <= |s|
    ensures (c, j) == Backs(s, i, c0)
  {
    c := c0;
    var amp;
    amp, j := PeekAt(s, i, {'&'});
    while amp
      invariant j <= |s| && Skip(s, j) == j && amp == Peek(s, j, {'&'})
      invariant Backs(s, j, c) == Backs(s, i, c0)
      decreases |s| - j, amp
    {
      var t := NextToken(s, j);
      c := PBack(c);
      amp, j := PeekAt(s, t.next, {'&'});
    }
  }

  method ParseLine(s: string, i: nat) returns (r: Parsed<PCmd>)
    requires i <= |s|
    ensures r == Line(s, i)
    decreases |s| - i, 3
  {
    r := ParsePipe(s, i);
    if r.Some? {
      var c, j := ParseBacks(s, r.value.1, r.value.0);
      var semi, j' := PeekAt(s, j, {';'});
      if !semi {
        return Some((c, j'));
      }
      var t := NextToken(s, j);
      r := ParseLine(s, t.next);
      if r.Some? {
        r := Some((PList(c, r.value.0), r.value.1));
      }
    }
  }
}
