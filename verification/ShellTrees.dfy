/**
 * Command trees as values: what a parsed command says, its canonical printing,
 * and the round trip through the parser of sh.c.
 */
module ShellTrees {
  import opened Wrappers
  import opened Shell

  /** A command, its strings spelled out. */
  datatype Cmd =
    | Exec(argv: seq<string>)
    | Redir(cmd: Cmd, file: string, input: bool)
    | Pipe(left: Cmd, right: Cmd)
    | List(left: Cmd, right: Cmd)
    | Back(cmd: Cmd)

  predicate Word(w: string) {
    w != "" && forall k :: 0 <= k < |w| ==> WordChar(w[k])
  }

  predicate WellFormed(c: Cmd) {
    match c
    case Exec(argv) => |argv| < MAXARGS && forall k :: 0 <= k < |argv| ==> Word(argv[k])
    case Redir(d, file, _) => WellFormed(d) && Word(file)
    case Pipe(l, r) => WellFormed(l) && WellFormed(r)
    case List(l, r) => WellFormed(l) && WellFormed(r)
    case Back(d) => WellFormed(d)
  }

  // ---------- what a parsed command says ----------

  /** The span is one maximal word of s. */
  predicate OneWord(s: string, w: Span) {
    w.q < w.eq <= |s| && (w.eq < |s| ==> !WordChar(s[w.eq])) && forall k :: w.q <= k < w.eq ==> WordChar(s[k])
  }

  predicate Tokens(s: string, c: PCmd) {
    match c
    case PExec(argv) => |argv| < MAXARGS && forall k :: 0 <= k < |argv| ==> OneWord(s, argv[k])
    case PRedir(d, file, _) => Tokens(s, d) && OneWord(s, file)
    case PPipe(l, r) => Tokens(s, l) && Tokens(s, r)
    case PList(l, r) => Tokens(s, l) && Tokens(s, r)
    case PBack(d) => Tokens(s, d)
  }

  function Text(s: string, w: Span): (t: string)
    requires OneWord(s, w)
    ensures Word(t)
  {
    s[w.q..w.eq]
  }

  function Texts(s: string, argv: seq<Span>): (ws: seq<string>)
    requires forall k :: 0 <= k < |argv| ==> OneWord(s, argv[k])
    ensures |ws| == |argv| && forall k :: 0 <= k < |argv| ==> ws[k] == Text(s, argv[k])
  {
    seq(|argv|, k requires 0 <= k < |argv| => Text(s, argv[k]))
  }

  function Words(s: string, c: PCmd): (t: Cmd)
    requires Tokens(s, c)
    ensures WellFormed(t)
  {
    match c
    case PExec(argv) => Exec(Texts(s, argv))
    case PRedir(d, file, input) => Redir(Words(s, d), Text(s, file), input)
    case PPipe(l, r) => Pipe(Words(s, l), Words(s, r))
    case PList(l, r) => List(Words(s, l), Words(s, r))
    case PBack(d) => Back(Words(s, d))
  }

  // ---------- every parse is made of whole tokens ----------

  predicate TokenRedirs(s: string, rs: seq<Rd>) {
    forall k :: 0 <= k < |rs| ==> OneWord(s, rs[k].file)
  }

  lemma {:induction false} WrapTokens(s: string, c: PCmd, rs: seq<Rd>)
    requires Tokens(s, c) && TokenRedirs(s, rs)
    ensures Tokens(s, Wrap(c, rs))
  {
    if rs != [] {
      WrapTokens(s, c, rs[..|rs| - 1]);
    }
  }

  lemma {:induction false} RedirsTokens(s: string, i: nat, rs: seq<Rd>)
    requires i <= |s| && TokenRedirs(s, rs)
    ensures Redirs(s, i, rs).Some? ==> TokenRedirs(s, Redirs(s, i, rs).value.0)
    decreases |s| - i
  {
    if Peek(s, i, {'<', '>'}) {
      var t := GetToken(s, i);
      var f := GetToken(s, t.next);
      if f.kind == 'a' {
        RedirsTokens(s, f.next, rs + [Rd(Span(f.q, f.eq), t.kind == '<')]);
      }
    }
  }

  lemma {:induction false} ArgsTokens(s: string, i: nat, argv: seq<Span>, rs: seq<Rd>)
    requires i <= |s| && Tokens(s, PExec(argv)) && TokenRedirs(s, rs)
    ensures Args(s, i, argv, rs).Some? ==> Tokens(s, Args(s, i, argv, rs).value.0)
    decreases |s| - i
  {
    WrapTokens(s, PExec(argv), rs);
    if !Peek(s, i, {'|', ')', '&', ';'}) {
      var t := GetToken(s, i);
      if t.kind == 'a' && |argv| + 1 < MAXARGS {
        RedirsTokens(s, t.next, rs);
        match Redirs(s, t.next, rs)
        case None =>
        case Some((rs', j)) => ArgsTokens(s, j, argv + [Span(t.q, t.eq)], rs');
      }
    }
  }

  lemma {:induction false} BacksTokens(s: string, i: nat, c: PCmd)
    requires i <= |s| && Tokens(s, c)
    ensures Tokens(s, Backs(s, i, c).0)
    decreases |s| - i
  {
    if Peek(s, i, {'&'}) {
      BacksTokens(s, GetToken(s, i).next, PBack(c));
    }
  }

  lemma {:induction false} ExecTokens(s: string, i: nat)
    requires i <= |s|
    ensures Simple(s, i).Some? ==> Tokens(s, Simple(s, i).value.0)
    decreases |s| - i, 1
  {
    if Peek(s, i, {'('}) {
      BlockTokens(s, i);
    } else {
      RedirsTokens(s, i, []);
      match Redirs(s, i, [])
      case None =>
      case Some((rs, j)) => ArgsTokens(s, j, [], rs);
    }
  }

  lemma {:induction false} BlockTokens(s: string, i: nat)
    requires i <= |s| && Peek(s, i, {'('})
    ensures Block(s, i).Some? ==> Tokens(s, Block(s, i).value.0)
    decreases |s| - i, 0
  {
    LineTokens(s, GetToken(s, i).next);
    match Line(s, GetToken(s, i).next)
    case None =>
    case Some((c, j)) =>
      if Peek(s, j, {')'}) {
        RedirsTokens(s, GetToken(s, j).next, []);
        match Redirs(s, GetToken(s, j).next, [])
        case None =>
        case Some((rs, k)) => WrapTokens(s, c, rs);
      }
  }

  lemma {:induction false} PipeTokens(s: string, i: nat)
    requires i <= |s|
    ensures PipeLine(s, i).Some? ==> Tokens(s, PipeLine(s, i).value.0)
    decreases |s| - i, 2
  {
    ExecTokens(s, i);
    match Simple(s, i)
    case None =>
    case Some((c, j)) =>
      if Peek(s, j, {'|'}) {
        PipeTokens(s, GetToken(s, j).next);
      }
  }

  lemma {:induction false} LineTokens(s: string, i: nat)
    requires i <= |s|
    ensures Line(s, i).Some? ==> Tokens(s, Line(s, i).value.0)
    decreases |s| - i, 3
  {
    PipeTokens(s, i);
    match PipeLine(s, i)
    case None =>
    case Some((c0, j0)) =>
      BacksTokens(s, j0, c0);
      var j := Backs(s, j0, c0).1;
      if Peek(s, j, {';'}) {
        LineTokens(s, GetToken(s, j).next);
      }
  }

  /** The command a line stands for, none when the parser panics. */
  function Parse(s: string): (r: Option<Cmd>)
    ensures r.Some? ==> WellFormed(r.value)
  {
    LineTokens(s, 0);
    match ParseCmd(s)
    case None => None
    case Some(c) => Some(Words(s, c))
  }

  // ---------- canonical printing ----------

  function Join(ws: seq<string>): string {
    if ws == [] then "" else if |ws| == 1 then ws[0] else ws[0] + " " + Join(ws[1..])
  }

  function Group(c: Cmd): string
    decreases c, 1
  {
    "(" + Print(c) + ")"
  }

  function Print(c: Cmd): string
    decreases c, 0
  {
    match c
    case Exec(argv) => Join(argv)
    case Redir(d, file, input) => Group(d) + (if input then "<" else ">") + file
    case Pipe(l, r) => Group(l) + "|" + Group(r)
    case List(l, r) => Group(l) + ";" + Group(r)
    case Back(d) => Group(d) + "&"
  }

  // ---------- round trip ----------

  predicate At(s: string, i: nat, t: string) {
    i + |t| <= |s| && s[i..i + |t|] == t
  }

  lemma Parts(s: string, i: nat, t: string, u: string)
    requires At(s, i, t + u)
    ensures At(s, i, t) && At(s, i + |t|, u)
  {
    assert s[i..i + |t|] == (t + u)[..|t|];
    assert s[i + |t|..i + |t| + |u|] == (t + u)[|t|..];
  }

  /** Where a printed command may end. */
  predicate Stop(s: string, i: nat) {
    i == |s| || (i < |s| && s[i] == ')')
  }

  lemma WordToken(s: string, i: nat, w: string)
    requires Word(w) && At(s, i, w) && (i + |w| < |s| ==> !WordChar(s[i + |w|]))
    ensures GetToken(s, i) == Token('a', i, i + |w|, Skip(s, i + |w|))
    ensures OneWord(s, Span(i, i + |w|)) && s[i..i + |w|] == w
  {
    forall k | i <= k < i + |w|
      ensures WordChar(s[k])
    {
      assert s[k] == w[k - i];
    }
    var e := WordEnd(s, i);
    assert e == i + |w|;
  }

  /** A one-character symbol at the cursor. */
  lemma SymbolToken(s: string, i: nat)
    requires i < |s| && Symbol(s[i]) && (i + 1 < |s| ==> !White(s[i + 1]) && s[i + 1] != '>')
    ensures GetToken(s, i) == Token(s[i], i, i + 1, i + 1)
  {
  }

  lemma PrintStart(c: Cmd)
    requires WellFormed(c)
    ensures Print(c) == "" || (!White(Print(c)[0]) && Print(c)[0] != '>')
  {
    match c
    case Exec(argv) => if argv != [] { assert Word(argv[0]) && Join(argv)[0] == argv[0][0]; }
    case Redir(d, _, _) => assert Print(c)[0] == Group(d)[0];
    case Pipe(l, _) => assert Print(c)[0] == Group(l)[0];
    case List(l, _) => assert Print(c)[0] == Group(l)[0];
    case Back(d) => assert Print(c)[0] == Group(d)[0];
  }

  lemma GroupParts(s: string, i: nat, c: Cmd)
    requires WellFormed(c) && At(s, i, Group(c))
    ensures |Group(c)| == |Print(c)| + 2 && s[i] == '(' && s[i + 1 + |Print(c)|] == ')'
    ensures At(s, i + 1, Print(c)) && GetToken(s, i) == Token('(', i, i + 1, i + 1)
  {
    Parts(s, i, "(" + Print(c), ")");
    Parts(s, i, "(", Print(c));
    PrintStart(c);
    assert s[i] == '(';
    assert Print(c) != "" ==> s[i + 1] == Print(c)[0];
    assert s[i + 1 + |Print(c)|] == ')';
    SymbolToken(s, i);
  }

  /** One more argument, no redirection after it. */
  lemma ArgsStep(s: string, i: nat, spans: seq<Span>, t: Token)
    requires i < |s| && |spans| + 1 < MAXARGS
    requires WordChar(s[i]) && t == GetToken(s, i) && !Peek(s, t.next, {'<', '>'})
    ensures Args(s, i, spans, []) == Args(s, t.next, spans + [Span(t.q, t.eq)], [])
  {
    assert Redirs(s, t.next, []) == Some(([], t.next));
  }

  lemma ArgsEnd(s: string, i: nat, spans: seq<Span>)
    requires Stop(s, i)
    ensures Args(s, i, spans, []) == Some((PExec(spans), i))
  {
    assert Wrap(PExec(spans), []) == PExec(spans);
  }

  lemma JoinParts(s: string, i: nat, ws: seq<string>)
    requires |ws| > 1 && At(s, i, Join(ws))
    ensures |Join(ws)| == |ws[0]| + 1 + |Join(ws[1..])|
    ensures At(s, i, ws[0]) && s[i + |ws[0]|] == ' ' && At(s, i + |ws[0]| + 1, Join(ws[1..]))
  {
    var w, rest := ws[0], Join(ws[1..]);
    assert Join(ws) == w + (" " + rest);
    Parts(s, i, w, " " + rest);
    Parts(s, i + |w|, " ", rest);
  }

  lemma JoinStart(s: string, i: nat, ws: seq<string>)
    requires ws != [] && Word(ws[0]) && At(s, i, Join(ws))
    ensures i < |s| && WordChar(s[i])
  {
    assert Join(ws)[0] == ws[0][0] && s[i] == s[i..i + |Join(ws)|][0];
  }

  /** Where the first of the printed words ends, and where the next begins. */
  lemma WordGap(s: string, i: nat, ws: seq<string>) returns (n: nat)
    requires ws != [] && forall k :: 0 <= k < |ws| ==> Word(ws[k])
    requires At(s, i, Join(ws)) && Stop(s, i + |Join(ws)|)
    ensures At(s, i, ws[0]) && (i + |ws[0]| < |s| ==> !WordChar(s[i + |ws[0]|])) && n == Skip(s, i + |ws[0]|)
    ensures At(s, n, Join(ws[1..])) && n + |Join(ws[1..])| == i + |Join(ws)|
    ensures n < |s| ==> WordChar(s[n]) || s[n] == ')'
  {
    var e := i + |ws[0]|;
    n := Skip(s, e);
    if |ws| > 1 {
      JoinParts(s, i, ws);
      JoinStart(s, e + 1, ws[1..]);
      assert n == Skip(s, e + 1) == e + 1;
    } else {
      assert n == e;
    }
  }

  lemma FirstWord(s: string, i: nat, ws: seq<string>) returns (t: Token)
    requires ws != [] && forall k :: 0 <= k < |ws| ==> Word(ws[k])
    requires At(s, i, Join(ws)) && Stop(s, i + |Join(ws)|)
    ensures t == GetToken(s, i) && i < |s| && WordChar(s[i]) && t.q == i && !Peek(s, t.next, {'<', '>'})
    ensures OneWord(s, Span(i, t.eq)) && Text(s, Span(i, t.eq)) == ws[0]
    ensures At(s, t.next, Join(ws[1..])) && t.next + |Join(ws[1..])| == i + |Join(ws)|
  {
    var n := WordGap(s, i, ws);
    WordToken(s, i, ws[0]);
    t := Token('a', i, i + |ws[0]|, n);
  }

  /** The spans are tokens that read as ws. */
  predicate Spells(s: string, spans: seq<Span>, ws: seq<string>) {
    |spans| == |ws| && forall k :: 0 <= k < |spans| ==> OneWord(s, spans[k]) && Text(s, spans[k]) == ws[k]
  }

  /** One turn of parseexec's loop over a printed word. */
  lemma ArgsTurn(s: string, i: nat, spans: seq<Span>, ws: seq<string>) returns (w: Span, n: nat)
    requires |spans| + 1 < MAXARGS && ws != [] && forall k :: 0 <= k < |ws| ==> Word(ws[k])
    requires At(s, i, Join(ws)) && Stop(s, i + |Join(ws)|)
    ensures n <= |s| && Args(s, i, spans, []) == Args(s, n, spans + [w], [])
    ensures OneWord(s, w) && Text(s, w) == ws[0]
    ensures At(s, n, Join(ws[1..])) && n + |Join(ws[1..])| == i + |Join(ws)|
  {
    var t := FirstWord(s, i, ws);
    w, n := Span(t.q, t.eq), t.next;
    ArgsStep(s, i, spans, t);
  }

  lemma SpellsSnoc(s: string, spans: seq<Span>, done: seq<string>, w: Span)
    requires Spells(s, spans, done) && OneWord(s, w)
    ensures Spells(s, spans + [w], done + [Text(s, w)])
  {
  }

  lemma Shift(done: seq<string>, ws: seq<string>)
    requires ws != []
    ensures done + [ws[0]] + ws[1..] == done + ws
  {
  }

  lemma {:induction false} ArgsOf(s: string, i: nat, spans: seq<Span>, done: seq<string>, ws: seq<string>, e: nat)
      returns (argv: seq<Span>)
    requires |spans| + |ws| < MAXARGS && Spells(s, spans, done)
    requires forall k :: 0 <= k < |ws| ==> Word(ws[k])
    requires At(s, i, Join(ws)) && e == i + |Join(ws)| && Stop(s, e)
    ensures Args(s, i, spans, []) == Some((PExec(argv), e)) && Spells(s, argv, done + ws)
    decreases |ws|
  {
    if ws == [] {
      argv := spans;
      ArgsEnd(s, i, spans);
      assert done + ws == done;
    } else {
      var w, n := ArgsTurn(s, i, spans, ws);
      SpellsSnoc(s, spans, done, w);
      Shift(done, ws);
      argv := ArgsOf(s, n, spans + [w], done + [ws[0]], ws[1..], e);
    }
  }

  /** A procedure of the parser, for stating what it gives. */
  datatype Rule = LineRule | PipeRule | ExecRule

  function Derive(g: Rule, s: string, i: nat): Parsed<PCmd>
    requires i <= |s|
  {
    match g
    case LineRule => Line(s, i)
    case PipeRule => PipeLine(s, i)
    case ExecRule => Simple(s, i)
  }

  /** Mentioning Unfold(g) lets a proof look inside Gives(g, ...). */
  predicate Unfold(g: Rule) { true }

  /** From i, the procedure reads up to e and gives p. */
  predicate Gives(g: Rule, s: string, i: nat, p: PCmd, e: nat) {
    forall h {:trigger Unfold(h)} :: h == g ==> i <= |s| && Derive(h, s, i) == Some((p, e))
  }

  /** From k, parseredirs reads rs up to e. */
  predicate Redirects(s: string, k: nat, rs: seq<Rd>, e: nat) {
    forall h {:trigger Unfold(h)} :: h == ExecRule ==> k <= |s| && Redirs(s, k, []) == Some((rs, e))
  }

  lemma Fold(g: Rule, s: string, i: nat, p: PCmd, e: nat)
    requires i <= |s| && Derive(g, s, i) == Some((p, e))
    ensures Gives(g, s, i, p, e)
  {
  }

  /** parseblock between its two parentheses. */
  lemma BlockTurn(s: string, i: nat, e: nat, p: PCmd, rs: seq<Rd>, j: nat)
    requires i < e < |s| && s[i] == '(' && s[e] == ')' && (e + 1 < |s| ==> !White(s[e + 1]))
    requires GetToken(s, i).next == i + 1 && Gives(LineRule, s, i + 1, p, e) && Redirects(s, e + 1, rs, j)
    ensures Gives(ExecRule, s, i, Wrap(p, rs), j)
  {
    assert Unfold(LineRule) && Unfold(ExecRule);
    assert GetToken(s, e).next == e + 1;
    assert Peek(s, i, {'('}) && Peek(s, e, {')'});
    assert Block(s, i) == Some((Wrap(p, rs), j));
    Fold(ExecRule, s, i, Wrap(p, rs), j);
  }

  /** A group followed by the redirections rs up to j. */
  lemma GroupExec(s: string, i: nat, c: Cmd, p: PCmd, rs: seq<Rd>, j: nat)
    requires WellFormed(c) && At(s, i, Group(c)) && Gives(LineRule, s, i + 1, p, i + 1 + |Print(c)|)
    requires Redirects(s, i + |Group(c)|, rs, j)
    requires i + |Group(c)| < |s| ==> !White(s[i + |Group(c)|])
    ensures Gives(ExecRule, s, i, Wrap(p, rs), j)
  {
    GroupParts(s, i, c);
    BlockTurn(s, i, i + 1 + |Print(c)|, p, rs, j);
  }

  lemma ExecWords(s: string, i: nat, ws: seq<string>, e: nat) returns (argv: seq<Span>)
    requires WellFormed(Exec(ws)) && At(s, i, Join(ws)) && e == i + |Join(ws)| && Stop(s, e)
    ensures Gives(ExecRule, s, i, PExec(argv), e) && Spells(s, argv, ws)
  {
    argv := ArgsOf(s, i, [], [], ws, e);
    assert [] + ws == ws;
    if ws != [] {
      JoinStart(s, i, ws);
    }
    assert Redirs(s, i, []) == Some(([], i));
    Fold(ExecRule, s, i, PExec(argv), e);
  }

  /** Nothing at e continues a pipeline or a list. */
  lemma Whole(s: string, i: nat, p: PCmd, e: nat)
    requires Gives(ExecRule, s, i, p, e) && Stop(s, e)
    ensures Gives(PipeRule, s, i, p, e) && Gives(LineRule, s, i, p, e)
  {
    assert Unfold(ExecRule);
    assert Backs(s, e, p) == (p, e);
    Fold(PipeRule, s, i, p, e);
    Fold(LineRule, s, i, p, e);
  }

  lemma NoRedir(s: string, k: nat)
    requires k <= |s| && (k < |s| ==> s[k] in {'|', ';', '&', ')'})
    ensures Redirects(s, k, [], k)
  {
    assert Redirs(s, k, []) == Some(([], k));
  }

  /** A group with no redirection after it. */
  lemma BareGroup(s: string, i: nat, c: Cmd, p: PCmd)
    requires WellFormed(c) && At(s, i, Group(c)) && Gives(LineRule, s, i + 1, p, i + 1 + |Print(c)|)
    requires i + |Group(c)| < |s| ==> s[i + |Group(c)|] in {'|', ';', '&', ')'}
    ensures Gives(ExecRule, s, i, p, i + |Group(c)|)
  {
    var k := i + |Group(c)|;
    NoRedir(s, k);
    GroupExec(s, i, c, p, [], k);
    assert Wrap(p, []) == p;
  }

  /** parseredirs on one redirection whose tokens are known. */
  lemma RedirTurn(s: string, k: nat, e: nat)
    requires k + 1 < e <= |s| && (s[k] == '<' || s[k] == '>') && WordChar(s[k + 1]) && Stop(s, e)
    requires GetToken(s, k + 1) == Token('a', k + 1, e, e)
    ensures Redirects(s, k, [Rd(Span(k + 1, e), s[k] == '<')], e)
  {
    SymbolToken(s, k);
    var rs := [] + [Rd(Span(k + 1, e), s[k] == '<')];
    assert Redirs(s, e, rs) == Some((rs, e));
    assert Redirs(s, k, []) == Redirs(s, e, rs);
    assert rs == [Rd(Span(k + 1, e), s[k] == '<')];
  }

  lemma RedirParts(s: string, k: nat, mark: string, file: string, e: nat)
    requires Word(file) && |mark| == 1 && At(s, k, mark + file) && e == k + 1 + |file| && Stop(s, e)
    ensures s[k] == mark[0] && WordChar(s[k + 1]) && GetToken(s, k + 1) == Token('a', k + 1, e, e)
    ensures OneWord(s, Span(k + 1, e)) && Text(s, Span(k + 1, e)) == file
  {
    Parts(s, k, mark, file);
    WordToken(s, k + 1, file);
    assert s[k] == s[k..k + 1][0];
  }

  lemma OneRedir(s: string, k: nat, file: string, input: bool, e: nat)
    requires Word(file) && At(s, k, (if input then "<" else ">") + file) && e == k + 1 + |file| && Stop(s, e)
    ensures k < |s| && !White(s[k]) && Redirects(s, k, [Rd(Span(k + 1, e), input)], e)
    ensures OneWord(s, Span(k + 1, e)) && Text(s, Span(k + 1, e)) == file
  {
    RedirParts(s, k, if input then "<" else ">", file, e);
    RedirTurn(s, k, e);
  }

  lemma WrapOne(p: PCmd, rd: Rd)
    ensures Wrap(p, [rd]) == PRedir(p, rd.file, rd.input)
  {
    assert Wrap(p, []) == p;
  }

  lemma RedirGroup(s: string, i: nat, c: Cmd, p: PCmd, file: string, input: bool, e: nat)
    requires WellFormed(c) && Word(file) && At(s, i, Group(c) + ((if input then "<" else ">") + file))
    requires e == i + |Group(c)| + 1 + |file| && Stop(s, e)
    requires Gives(LineRule, s, i + 1, p, i + 1 + |Print(c)|)
    ensures Gives(ExecRule, s, i, PRedir(p, Span(i + |Group(c)| + 1, e), input), e)
    ensures OneWord(s, Span(i + |Group(c)| + 1, e)) && Text(s, Span(i + |Group(c)| + 1, e)) == file
  {
    var k := i + |Group(c)|;
    Parts(s, i, Group(c), (if input then "<" else ">") + file);
    OneRedir(s, k, file, input, e);
    var rs := [Rd(Span(k + 1, e), input)];
    GroupExec(s, i, c, p, rs, e);
    WrapOne(p, rs[0]);
  }

  lemma PairParts(s: string, i: nat, l: Cmd, sep: char, r: Cmd)
    requires At(s, i, Group(l) + [sep] + Group(r))
    ensures At(s, i, Group(l)) && At(s, i + |Group(l)| + 1, Group(r))
    ensures s[i + |Group(l)|] == sep && s[i + |Group(l)| + 1] == '('
  {
    Parts(s, i, Group(l) + [sep], Group(r));
    Parts(s, i, Group(l), [sep]);
    var k := i + |Group(l)|;
    assert s[k] == s[k..k + 1][0] && s[k + 1] == s[k + 1..k + 1 + |Group(r)|][0] == '(';
  }

  lemma PipeTurn(s: string, i: nat, k: nat, p: PCmd, q: PCmd, e: nat)
    requires i <= k < |s| - 1 && s[k] == '|' && s[k + 1] == '(' && Stop(s, e)
    requires Gives(ExecRule, s, i, p, k) && Gives(PipeRule, s, k + 1, q, e)
    ensures Gives(LineRule, s, i, PPipe(p, q), e)
  {
    assert Unfold(ExecRule) && Unfold(PipeRule);
    SymbolToken(s, k);
    assert PipeLine(s, i) == Some((PPipe(p, q), e));
    assert Backs(s, e, PPipe(p, q)) == (PPipe(p, q), e);
    Fold(LineRule, s, i, PPipe(p, q), e);
  }

  lemma ListTurn(s: string, i: nat, k: nat, p: PCmd, q: PCmd, e: nat)
    requires i <= k < |s| - 1 && s[k] == ';' && s[k + 1] == '('
    requires Gives(ExecRule, s, i, p, k) && Gives(LineRule, s, k + 1, q, e)
    ensures Gives(LineRule, s, i, PList(p, q), e)
  {
    assert Unfold(ExecRule) && Unfold(LineRule);
    SymbolToken(s, k);
    assert PipeLine(s, i) == Some((p, k));
    assert Backs(s, k, p) == (p, k);
    Fold(LineRule, s, i, PList(p, q), e);
  }

  lemma BackTurn(s: string, i: nat, k: nat, p: PCmd)
    requires i <= k < |s| && s[k] == '&' && Stop(s, k + 1) && Gives(ExecRule, s, i, p, k)
    ensures Gives(LineRule, s, i, PBack(p), k + 1)
  {
    assert Unfold(ExecRule);
    assert PipeLine(s, i) == Some((p, k));
    SymbolToken(s, k);
    assert Backs(s, k + 1, PBack(p)) == (PBack(p), k + 1);
    assert Backs(s, k, p) == (PBack(p), k + 1);
    Fold(LineRule, s, i, PBack(p), k + 1);
  }

  lemma WordsOf(s: string, i: nat, ws: seq<string>, e: nat) returns (p: PCmd)
    requires WellFormed(Exec(ws)) && At(s, i, Join(ws)) && e == i + |Join(ws)| && Stop(s, e)
    ensures Gives(LineRule, s, i, p, e) && Tokens(s, p) && Words(s, p) == Exec(ws)
  {
    var argv := ExecWords(s, i, ws, e);
    p := PExec(argv);
    assert Texts(s, argv) == ws;
    Whole(s, i, p, e);
  }

  lemma RedirOf(s: string, i: nat, c: Cmd, q: PCmd, file: string, input: bool, e: nat) returns (p: PCmd)
    requires WellFormed(c) && Word(file) && At(s, i, Group(c) + ((if input then "<" else ">") + file))
    requires e == i + |Group(c)| + 1 + |file| && Stop(s, e)
    requires Gives(LineRule, s, i + 1, q, i + 1 + |Print(c)|) && Tokens(s, q) && Words(s, q) == c
    ensures Gives(LineRule, s, i, p, e) && Tokens(s, p) && Words(s, p) == Redir(c, file, input)
  {
    RedirGroup(s, i, c, q, file, input, e);
    p := PRedir(q, Span(i + |Group(c)| + 1, e), input);
    Whole(s, i, p, e);
  }

  lemma BackOf(s: string, i: nat, c: Cmd, q: PCmd) returns (p: PCmd)
    requires WellFormed(c) && At(s, i, Group(c)) && At(s, i + |Group(c)|, "&") && Stop(s, i + |Group(c)| + 1)
    requires Gives(LineRule, s, i + 1, q, i + 1 + |Print(c)|) && Tokens(s, q) && Words(s, q) == c
    ensures Gives(LineRule, s, i, p, i + |Group(c)| + 1) && Tokens(s, p) && Words(s, p) == Back(c)
  {
    var k := i + |Group(c)|;
    assert s[k] == s[k..k + 1][0];
    BareGroup(s, i, c, q);
    BackTurn(s, i, k, q);
    p := PBack(q);
  }

  /** A printed command inside any line, up to the end of the line or a closing parenthesis. */
  lemma {:induction false} LineOf(s: string, i: nat, c: Cmd, e: nat) returns (p: PCmd)
    requires WellFormed(c) && At(s, i, Print(c)) && e == i + |Print(c)| && Stop(s, e)
    ensures Gives(LineRule, s, i, p, e) && Tokens(s, p) && Words(s, p) == c
    decreases |Print(c)|, 0
  {
    match c
    case Exec(ws) =>
      p := WordsOf(s, i, ws, e);
    case Redir(d, file, input) =>
      var tail := (if input then "<" else ">") + file;
      assert Print(c) == Group(d) + tail;
      Parts(s, i, Group(d), tail);
      var q := GroupOf(s, i, d);
      p := RedirOf(s, i, d, q, file, input, e);
    case Pipe(l, r) =>
      var a, b := PairOf(s, i, l, '|', r, e);
      PipeTurn(s, i, i + |Group(l)|, a, b, e);
      p := PPipe(a, b);
    case List(l, r) =>
      var a, b := PairOf(s, i, l, ';', r, e);
      ListTurn(s, i, i + |Group(l)|, a, b, e);
      p := PList(a, b);
    case Back(d) =>
      Parts(s, i, Group(d), "&");
      var q := GroupOf(s, i, d);
      p := BackOf(s, i, d, q);
  }

  lemma {:induction false} PairOf(s: string, i: nat, l: Cmd, sep: char, r: Cmd, e: nat) returns (a: PCmd, b: PCmd)
    requires WellFormed(l) && WellFormed(r) && sep in {'|', ';'} && At(s, i, Group(l) + [sep] + Group(r))
    requires e == i + |Group(l)| + 1 + |Group(r)| && Stop(s, e)
    ensures s[i + |Group(l)|] == sep && s[i + |Group(l)| + 1] == '('
    ensures Gives(ExecRule, s, i, a, i + |Group(l)|) && Tokens(s, a) && Words(s, a) == l
    ensures Gives(PipeRule, s, i + |Group(l)| + 1, b, e) && Gives(LineRule, s, i + |Group(l)| + 1, b, e)
    ensures Tokens(s, b) && Words(s, b) == r
    decreases |Print(l)| + |Print(r)| + 2, 0
  {
    PairParts(s, i, l, sep, r);
    var k := i + |Group(l)|;
    a := GroupOf(s, i, l);
    BareGroup(s, i, l, a);
    b := GroupOf(s, k + 1, r);
    BareGroup(s, k + 1, r, b);
    Whole(s, k + 1, b, e);
  }

  lemma {:induction false} GroupOf(s: string, i: nat, c: Cmd) returns (p: PCmd)
    requires WellFormed(c) && At(s, i, Group(c))
    ensures Gives(LineRule, s, i + 1, p, i + 1 + |Print(c)|) && Tokens(s, p) && Words(s, p) == c
    decreases |Print(c)|, 1
  {
    GroupParts(s, i, c);
    p := LineOf(s, i + 1, c, i + 1 + |Print(c)|);
  }

  /** Parsing undoes printing, for every well-formed command. */
  lemma ParserRoundTrip(c: Cmd)
    requires WellFormed(c)
    ensures Parse(Print(c)) == Some(c)
  {
    var p := LineOf(Print(c), 0, c, |Print(c)|);
    assert Unfold(LineRule);
  }

  /** Every accepted line has the same meaning as its canonical printing. */
  lemma CanonicalForm(s: string)
    requires Parse(s).Some?
    ensures Parse(Print(Parse(s).value)) == Parse(s)
  {
    ParserRoundTrip(Parse(s).value);
  }

  /** Different well-formed commands print differently. */
  lemma PrintInjective(c: Cmd, d: Cmd)
    requires WellFormed(c) && WellFormed(d) && Print(c) == Print(d)
    ensures c == d
  {
    ParserRoundTrip(c);
    ParserRoundTrip(d);
  }
}
