/**
 * The language of sh.c, given without its parser: what a line may look like, with blanks, words and redirections in
 * any order, and the command it stands for. The parser accepts exactly this language, with exactly these commands.
 */
module ShellGrammar {
  import opened Wrappers
  import opened Keys
  import opened Shell
  import opened ShellTrees

  // ---------- lines as sequences of marks and names ----------

  /** A mark goes by its character, ">>" by '+'. */
  datatype Tok = Mark(kind: char) | Name(word: string)

  const MARKS: set<char> := {'<', '>', '+', '|', '&', ';', '(', ')'}

  predicate Proper(t: Tok) {
    if t.Mark? then t.kind in MARKS else Word(t.word)
  }

  function Written(t: Tok): string {
    match t
    case Mark(kind) => if kind == '+' then ">>" else [kind]
    case Name(word) => word
  }

  predicate Blank(gap: string) {
    forall k :: 0 <= k < |gap| ==> White(gap[k])
  }

  /** What must not stand together without a blank: two names, or ">" and then ">" or ">>". */
  predicate Clash(t: Tok, u: Tok) {
    (t.Name? && u.Name?) || (t == Mark('>') && (u == Mark('>') || u == Mark('+')))
  }

  /** A line: tokens with blanks before, between and after them. */
  datatype Spelling = Close(gap: string) | Spell(gap: string, tok: Tok, rest: Spelling)

  predicate Spaced(x: Spelling) {
    && Blank(x.gap)
    && (x.Spell? ==> Proper(x.tok) && Spaced(x.rest) && (Apart(x.rest) || !Clash(x.tok, x.rest.tok)))
  }

  predicate Apart(x: Spelling) {
    x.gap != "" || x.Close?
  }

  function Letters(x: Spelling): string {
    match x
    case Close(gap) => gap
    case Spell(gap, tok, rest) => gap + Written(tok) + Letters(rest)
  }

  function Toks(x: Spelling): seq<Tok> {
    match x
    case Close(_) => []
    case Spell(_, tok, rest) => [tok] + Toks(rest)
  }

  // ---------- the grammar ----------

  /** A part of a simple command: an argument, or a redirection. */
  datatype Item = Arg(word: string) | File(op: char, word: string)

  /** A simple command, or a parenthesised line followed by redirections. */
  datatype Unit = Plain(items: seq<Item>) | Paren(body: Script, files: seq<Item>)

  /** unit | unit | ... | unit */
  datatype Row = Sole(unit: Unit) | Feed(unit: Unit, rest: Row)

  /** row &...& ; row &...& ; ... */
  datatype Script = End(row: Row, amps: nat) | Then(row: Row, amps: nat, rest: Script)

  predicate ItemOk(x: Item) {
    Word(x.word) && (x.File? ==> x.op in {'<', '>', '+'})
  }

  predicate UnitOk(u: Unit) {
    match u
    case Plain(items) => |Argv(items)| < MAXARGS && forall k :: 0 <= k < |items| ==> ItemOk(items[k])
    case Paren(body, files) => ScriptOk(body) && forall k :: 0 <= k < |files| ==> ItemOk(files[k]) && files[k].File?
  }

  predicate RowOk(r: Row) {
    match r
    case Sole(u) => UnitOk(u)
    case Feed(u, rest) => UnitOk(u) && RowOk(rest)
  }

  predicate ScriptOk(x: Script) {
    match x
    case End(r, _) => RowOk(r)
    case Then(r, _, rest) => RowOk(r) && ScriptOk(rest)
  }

  // ---------- how it is written ----------

  function ItemToks(x: Item): seq<Tok> {
    if x.Arg? then [Name(x.word)] else [Mark(x.op), Name(x.word)]
  }

  function ItemsToks(items: seq<Item>): seq<Tok> {
    if items == [] then [] else ItemToks(items[0]) + ItemsToks(items[1..])
  }

  function UnitToks(u: Unit): seq<Tok> {
    match u
    case Plain(items) => ItemsToks(items)
    case Paren(body, files) => [Mark('(')] + ScriptToks(body) + [Mark(')')] + ItemsToks(files)
  }

  function RowToks(r: Row): seq<Tok> {
    match r
    case Sole(u) => UnitToks(u)
    case Feed(u, rest) => UnitToks(u) + [Mark('|')] + RowToks(rest)
  }

  function Amps(n: nat): seq<Tok> {
    if n == 0 then [] else [Mark('&')] + Amps(n - 1)
  }

  function ScriptToks(x: Script): seq<Tok> {
    match x
    case End(r, n) => RowToks(r) + Amps(n)
    case Then(r, n, rest) => RowToks(r) + Amps(n) + [Mark(';')] + ScriptToks(rest)
  }

  // ---------- what it stands for ----------

  function Argv(items: seq<Item>): seq<string> {
    if items == [] then [] else (if items[0].Arg? then [items[0].word] else []) + Argv(items[1..])
  }

  /** Redirected by each of the items that is a redirection, the first innermost. */
  function Redirected(c: Cmd, items: seq<Item>): Cmd
    decreases |items|
  {
    if items == [] then c else
      Redirected(if items[0].File? then Redir(c, items[0].word, items[0].op == '<') else c, items[1..])
  }

  function UnitMeans(u: Unit): Cmd {
    match u
    case Plain(items) => Redirected(Exec(Argv(items)), items)
    case Paren(body, files) => Redirected(ScriptMeans(body), files)
  }

  function RowMeans(r: Row): Cmd {
    match r
    case Sole(u) => UnitMeans(u)
    case Feed(u, rest) => Pipe(UnitMeans(u), RowMeans(rest))
  }

  function InBack(c: Cmd, n: nat): Cmd
    decreases n
  {
    if n == 0 then c else InBack(Back(c), n - 1)
  }

  function ScriptMeans(x: Script): Cmd {
    match x
    case End(r, n) => InBack(RowMeans(r), n)
    case Then(r, n, rest) => List(InBack(RowMeans(r), n), ScriptMeans(rest))
  }

  // ---------- reading tokens ----------

  predicate Starts(ts: seq<Tok>, marks: set<char>) {
    ts != [] && ts[0].Mark? && ts[0].kind in marks
  }

  type Read<T> = Option<(T, seq<Tok>)>

  function ReadFiles(ts: seq<Tok>): (r: Read<seq<Item>>)
    ensures r.Some? ==> |r.value.1| <= |ts|
  {
    if !Starts(ts, {'<', '>', '+'}) then Some(([], ts))
    else if |ts| < 2 || ts[1].Mark? then None
    else
      Before(File(ts[0].kind, ts[1].word), ReadFiles(ts[2..]))
  }

  /** The items of a simple command that has n arguments so far. */
  function ReadItems(ts: seq<Tok>, n: nat): (r: Read<seq<Item>>)
    ensures r.Some? ==> |r.value.1| <= |ts|
  {
    if ts == [] || Starts(ts, {'|', ')', '&', ';'}) then Some(([], ts))
    else if Starts(ts, {'<', '>', '+'}) then
      if |ts| < 2 || ts[1].Mark? then None else Before(File(ts[0].kind, ts[1].word), ReadItems(ts[2..], n))
    else if ts[0].Mark? || n + 1 >= MAXARGS then None
    else Before(Arg(ts[0].word), ReadItems(ts[1..], n + 1))
  }

  function Before(x: Item, r: Read<seq<Item>>): Read<seq<Item>> {
    if r.None? then None else Some(([x] + r.value.0, r.value.1))
  }

  function ReadUnit(ts: seq<Tok>): (r: Read<Unit>)
    ensures r.Some? ==> |r.value.1| <= |ts|
    decreases |ts|, 0
  {
    if Starts(ts, {'('}) then
      match ReadScript(ts[1..])
      case None => None
      case Some((body, rest)) =>
        if !Starts(rest, {')'}) then None
        else
          match ReadFiles(rest[1..])
          case None => None
          case Some((files, rest')) => Some((Paren(body, files), rest'))
    else
      match ReadItems(ts, 0)
      case None => None
      case Some((items, rest)) => Some((Plain(items), rest))
  }

  function ReadRow(ts: seq<Tok>): (r: Read<Row>)
    ensures r.Some? ==> |r.value.1| <= |ts|
    decreases |ts|, 1
  {
    match ReadUnit(ts)
    case None => None
    case Some((u, rest)) =>
      if !Starts(rest, {'|'}) then Some((Sole(u), rest))
      else
        match ReadRow(rest[1..])
        case None => None
        case Some((r, rest')) => Some((Feed(u, r), rest'))
  }

  function ReadAmps(ts: seq<Tok>): (r: (nat, seq<Tok>))
    ensures |r.1| <= |ts|
  {
    if !Starts(ts, {'&'}) then (0, ts)
    else
      var (n, rest) := ReadAmps(ts[1..]);
      (n + 1, rest)
  }

  function ReadScript(ts: seq<Tok>): (r: Read<Script>)
    ensures r.Some? ==> |r.value.1| <= |ts|
    decreases |ts|, 2
  {
    match ReadRow(ts)
    case None => None
    case Some((r, rest)) =>
      var (n, rest') := ReadAmps(rest);
      if !Starts(rest', {';'}) then Some((End(r, n), rest'))
      else
        match ReadScript(rest'[1..])
        case None => None
        case Some((x, rest'')) => Some((Then(r, n, x), rest''))
  }

  // ---------- reading undoes writing ----------

  predicate AllProper(ts: seq<Tok>) {
    forall k :: 0 <= k < |ts| ==> Proper(ts[k])
  }

  lemma Regroup(a: seq<Tok>, b: seq<Tok>, c: seq<Tok>)
    ensures a + b + c == a + (b + c)
  {}

  lemma FileFirst(op: char, w: string, ts: seq<Tok>, n: nat)
    requires op in {'<', '>', '+'}
    ensures ReadFiles([Mark(op), Name(w)] + ts) == Before(File(op, w), ReadFiles(ts))
    ensures ReadItems([Mark(op), Name(w)] + ts, n) == Before(File(op, w), ReadItems(ts, n))
  {
    var us := [Mark(op), Name(w)] + ts;
    assert us[2..] == ts && us[0] == Mark(op) && us[1] == Name(w);
  }

  lemma ArgFirst(w: string, ts: seq<Tok>, n: nat)
    requires n + 1 < MAXARGS
    ensures ReadItems([Name(w)] + ts, n) == Before(Arg(w), ReadItems(ts, n + 1))
  {
    var us := [Name(w)] + ts;
    assert us[1..] == ts && us[0] == Name(w);
  }

  lemma {:induction false} FilesWritten(files: seq<Item>, rest: seq<Tok>)
    requires (forall k :: 0 <= k < |files| ==> ItemOk(files[k]) && files[k].File?) && !Starts(rest, {'<', '>', '+'})
    ensures ReadFiles(ItemsToks(files) + rest) == Some((files, rest))
  {
    if files == [] {
      assert ItemsToks(files) + rest == rest;
    } else {
      var x, tail := files[0], ItemsToks(files[1..]);
      FilesWritten(files[1..], rest);
      FileFirst(x.op, x.word, tail + rest, 0);
      Regroup(ItemToks(x), tail, rest);
      assert files == [x] + files[1..];
    }
  }

  lemma {:induction false} ItemsWritten(items: seq<Item>, n: nat, rest: seq<Tok>)
    requires (forall k :: 0 <= k < |items| ==> ItemOk(items[k])) && n + |Argv(items)| < MAXARGS
    requires rest == [] || Starts(rest, {'|', ')', '&', ';'})
    ensures ReadItems(ItemsToks(items) + rest, n) == Some((items, rest))
  {
    if items == [] {
      assert ItemsToks(items) + rest == rest;
    } else {
      var x, tail := items[0], ItemsToks(items[1..]);
      ItemsWritten(items[1..], if x.Arg? then n + 1 else n, rest);
      Regroup(ItemToks(x), tail, rest);
      if x.Arg? {
        ArgFirst(x.word, tail + rest, n);
      } else {
        FileFirst(x.op, x.word, tail + rest, n);
      }
      assert items == [x] + items[1..];
    }
  }

  lemma {:induction false} AmpsWritten(n: nat, rest: seq<Tok>)
    requires !Starts(rest, {'&'})
    ensures ReadAmps(Amps(n) + rest) == (n, rest)
  {
    if n == 0 {
      assert Amps(n) + rest == rest;
    } else {
      AmpsWritten(n - 1, rest);
      assert (Amps(n) + rest)[1..] == Amps(n - 1) + rest;
    }
  }

  predicate Ends(rest: seq<Tok>, marks: set<char>) {
    rest == [] || Starts(rest, marks)
  }

  lemma NoParen(items: seq<Item>, rest: seq<Tok>)
    requires (forall k :: 0 <= k < |items| ==> ItemOk(items[k])) && Ends(rest, {'|', ')', '&', ';'})
    ensures !Starts(ItemsToks(items) + rest, {'('})
  {
    if items != [] {
      assert (ItemsToks(items) + rest)[0] == ItemToks(items[0])[0];
    }
  }

  /** A mark and what comes after it. */
  function Led(c: char, ts: seq<Tok>): (us: seq<Tok>)
    ensures us != [] && us[0] == Mark(c) && us[1..] == ts
  {
    [Mark(c)] + ts
  }

  lemma Spread(a: seq<Tok>, b: seq<Tok>, c: char, d: seq<Tok>, rest: seq<Tok>)
    ensures a + b + [Mark(c)] + d + rest == a + (b + Led(c, d + rest))
    ensures a + [Mark(c)] + d + rest == a + Led(c, d + rest)
  {
  }

  lemma Enclosed(a: seq<Tok>, b: seq<Tok>, rest: seq<Tok>)
    ensures [Mark('(')] + a + [Mark(')')] + b + rest == Led('(', a + Led(')', b + rest))
  {
  }

  lemma {:induction false} UnitWritten(u: Unit, rest: seq<Tok>)
    requires UnitOk(u) && Ends(rest, {'|', ')', '&', ';'})
    ensures ReadUnit(UnitToks(u) + rest) == Some((u, rest))
  {
    match u
    case Plain(items) =>
      NoParen(items, rest);
      ItemsWritten(items, 0, rest);
    case Paren(body, files) =>
      ScriptWritten(body, Led(')', ItemsToks(files) + rest));
      FilesWritten(files, rest);
      Enclosed(ScriptToks(body), ItemsToks(files), rest);
  }

  lemma {:induction false} RowWritten(r: Row, rest: seq<Tok>)
    requires RowOk(r) && Ends(rest, {')', '&', ';'})
    ensures ReadRow(RowToks(r) + rest) == Some((r, rest))
  {
    match r
    case Sole(u) =>
      UnitWritten(u, rest);
    case Feed(u, r') =>
      UnitWritten(u, Led('|', RowToks(r') + rest));
      RowWritten(r', rest);
      Spread(UnitToks(u), [], '|', RowToks(r'), rest);
  }

  /** After its row a script goes on with the ampersands and then us. */
  lemma AmpsAfter(r: Row, n: nat, us: seq<Tok>)
    requires RowOk(r) && Ends(us, {')', ';'})
    requires ReadRow(RowToks(r) + (Amps(n) + us)) == Some((r, Amps(n) + us))
    ensures var ts := RowToks(r) + (Amps(n) + us);
            && (!Starts(us, {';'}) ==> ReadScript(ts) == Some((End(r, n), us)))
            && (Starts(us, {';'}) && ReadScript(us[1..]).Some? ==>
                  var (x, rest) := ReadScript(us[1..]).value; ReadScript(ts) == Some((Then(r, n, x), rest)))
  {
    AmpsWritten(n, us);
  }

  lemma AmpsEnd(n: nat, us: seq<Tok>)
    requires Ends(us, {')', ';'})
    ensures Ends(Amps(n) + us, {')', '&', ';'})
  {
    if n > 0 {
      assert (Amps(n) + us)[0] == Mark('&');
    }
  }

  lemma {:induction false} ScriptWritten(x: Script, rest: seq<Tok>)
    requires ScriptOk(x) && Ends(rest, {')'})
    ensures ReadScript(ScriptToks(x) + rest) == Some((x, rest))
  {
    var us := if x.End? then rest else Led(';', ScriptToks(x.rest) + rest);
    AmpsEnd(x.amps, us);
    RowWritten(x.row, Amps(x.amps) + us);
    AmpsAfter(x.row, x.amps, us);
    if x.Then? {
      ScriptWritten(x.rest, rest);
      Spread(RowToks(x.row), Amps(x.amps), ';', ScriptToks(x.rest), rest);
    } else {
      Regroup(RowToks(x.row), Amps(x.amps), rest);
    }
  }

  /** A token sequence is written by one script at most. */
  lemma Unambiguous(x: Script, y: Script)
    requires ScriptOk(x) && ScriptOk(y) && ScriptToks(x) == ScriptToks(y)
    ensures x == y
  {
    ScriptWritten(x, []);
    ScriptWritten(y, []);
    assert ScriptToks(x) + [] == ScriptToks(y) + [];
  }

  // ---------- writing undoes reading ----------

  lemma Headed(ts: seq<Tok>, a: seq<Tok>, rest: seq<Tok>)
    requires ts != [] && ts[1..] == a + rest
    ensures ts == [ts[0]] + a + rest
  {
    assert ts == [ts[0]] + ts[1..];
  }

  lemma ProperRest(a: seq<Tok>, rest: seq<Tok>)
    requires AllProper(a + rest)
    ensures AllProper(rest)
  {
    forall k | 0 <= k < |rest|
      ensures Proper(rest[k])
    {
      assert (a + rest)[|a| + k] == rest[k];
    }
  }

  /** One redirection, the items after it, and the rest. */
  lemma FileHeaded(ts: seq<Tok>, items: seq<Item>, rest: seq<Tok>)
    requires |ts| >= 2 && Starts(ts, {'<', '>', '+'}) && ts[1].Name? && Proper(ts[1])
    requires ts[2..] == ItemsToks(items) + rest
    ensures var x := File(ts[0].kind, ts[1].word); ItemOk(x) && ts == ItemsToks([x] + items) + rest
  {
    var x := File(ts[0].kind, ts[1].word);
    assert ts == [ts[0], ts[1]] + ts[2..];
    Regroup(ItemToks(x), ItemsToks(items), rest);
    ItemsCons(x, items);
  }

  lemma ItemsCons(x: Item, items: seq<Item>)
    ensures ItemsToks([x] + items) == ItemToks(x) + ItemsToks(items)
    ensures Argv([x] + items) == (if x.Arg? then [x.word] else []) + Argv(items)
  {
    assert ([x] + items)[1..] == items;
  }

  lemma ArgHeaded(ts: seq<Tok>, items: seq<Item>, rest: seq<Tok>)
    requires ts != [] && ts[0].Name? && Proper(ts[0]) && ts[1..] == ItemsToks(items) + rest
    ensures var x := Arg(ts[0].word); ItemOk(x) && ts == ItemsToks([x] + items) + rest
  {
    Headed(ts, ItemsToks(items), rest);
    ItemsCons(Arg(ts[0].word), items);
  }

  lemma {:induction false} FilesRead(ts: seq<Tok>)
    requires AllProper(ts) && ReadFiles(ts).Some?
    ensures var (files, rest) := ReadFiles(ts).value;
            && (forall k :: 0 <= k < |files| ==> ItemOk(files[k]) && files[k].File?)
            && ts == ItemsToks(files) + rest && !Starts(rest, {'<', '>', '+'})
  {
    if Starts(ts, {'<', '>', '+'}) {
      FilesRead(ts[2..]);
      var (files, rest) := ReadFiles(ts[2..]).value;
      FileHeaded(ts, files, rest);
    }
  }

  predicate AllItemsOk(items: seq<Item>) {
    forall k :: 0 <= k < |items| ==> ItemOk(items[k])
  }

  lemma {:induction false} ItemsRead(ts: seq<Tok>, n: nat)
    requires AllProper(ts) && n < MAXARGS && ReadItems(ts, n).Some?
    ensures var (items, rest) := ReadItems(ts, n).value;
            AllItemsOk(items) && n + |Argv(items)| < MAXARGS && ts == ItemsToks(items) + rest
  {
    if ts == [] || Starts(ts, {'|', ')', '&', ';'}) {
    } else if Starts(ts, {'<', '>', '+'}) {
      ItemsRead(ts[2..], n);
      var (items, rest) := ReadItems(ts[2..], n).value;
      FileHeaded(ts, items, rest);
      ItemsCons(File(ts[0].kind, ts[1].word), items);
    } else {
      ItemsRead(ts[1..], n + 1);
      var (items, rest) := ReadItems(ts[1..], n + 1).value;
      ArgHeaded(ts, items, rest);
      ItemsCons(Arg(ts[0].word), items);
    }
  }

  lemma {:induction false} AmpsRead(ts: seq<Tok>)
    ensures ts == Amps(ReadAmps(ts).0) + ReadAmps(ts).1
  {
    if Starts(ts, {'&'}) {
      AmpsRead(ts[1..]);
      Headed(ts, Amps(ReadAmps(ts[1..]).0), ReadAmps(ts[1..]).1);
    }
  }

  /** A mark, a, a mark, b, and the rest. */
  lemma Pasted(ts: seq<Tok>, a: seq<Tok>, us: seq<Tok>, b: seq<Tok>, rest: seq<Tok>)
    requires ts != [] && ts[1..] == a + us && us != [] && us[1..] == b + rest
    ensures ts == [ts[0]] + a + [us[0]] + b + rest
  {
    assert ts == [ts[0]] + ts[1..] && us == [us[0]] + us[1..];
  }

  /** a, b, a mark, c, and the rest. */
  lemma Joined(a: seq<Tok>, b: seq<Tok>, us: seq<Tok>, c: seq<Tok>, rest: seq<Tok>)
    requires us != [] && us[1..] == c + rest
    ensures a + (b + us) == a + b + [us[0]] + c + rest
  {
    assert us == [us[0]] + us[1..];
  }

  lemma {:induction false} UnitRead(ts: seq<Tok>)
    requires AllProper(ts) && ReadUnit(ts).Some?
    ensures var (u, rest) := ReadUnit(ts).value; UnitOk(u) && ts == UnitToks(u) + rest
    decreases |ts|, 0
  {
    if Starts(ts, {'('}) {
      ScriptRead(ts[1..]);
      var (body, rest) := ReadScript(ts[1..]).value;
      ProperRest(ScriptToks(body), rest);
      FilesRead(rest[1..]);
      var (files, rest') := ReadFiles(rest[1..]).value;
      Pasted(ts, ScriptToks(body), rest, ItemsToks(files), rest');
    } else {
      ItemsRead(ts, 0);
    }
  }

  lemma {:induction false} RowRead(ts: seq<Tok>)
    requires AllProper(ts) && ReadRow(ts).Some?
    ensures var (r, rest) := ReadRow(ts).value; RowOk(r) && ts == RowToks(r) + rest
    decreases |ts|, 1
  {
    UnitRead(ts);
    var (u, rest) := ReadUnit(ts).value;
    if Starts(rest, {'|'}) {
      ProperRest(UnitToks(u), rest);
      RowRead(rest[1..]);
      var (r, rest') := ReadRow(rest[1..]).value;
      Joined(UnitToks(u), [], rest, RowToks(r), rest');
    }
  }

  lemma {:induction false} ScriptRead(ts: seq<Tok>)
    requires AllProper(ts) && ReadScript(ts).Some?
    ensures var (x, rest) := ReadScript(ts).value; ScriptOk(x) && ts == ScriptToks(x) + rest
    decreases |ts|, 2
  {
    RowRead(ts);
    var (r, rest) := ReadRow(ts).value;
    AmpsRead(rest);
    var (n, rest') := ReadAmps(rest);
    if Starts(rest', {';'}) {
      ProperRest(RowToks(r), rest);
      ProperRest(Amps(n), rest');
      ScriptRead(rest'[1..]);
      var (x, rest'') := ReadScript(rest'[1..]).value;
      Joined(RowToks(r), Amps(n), rest', ScriptToks(x), rest'');
    } else {
      Regroup(RowToks(r), Amps(n), rest');
    }
  }

  // ---------- the tokens of a line ----------

  function TokAt(s: string, t: Token): Tok
    requires t.q <= t.eq <= |s|
  {
    if t.kind == 'a' then Name(s[t.q..t.eq]) else Mark(t.kind)
  }

  /** What gettoken gives from i on. */
  function Lex(s: string, i: nat): seq<Tok>
    requires i <= |s|
  {
    LexFrom(s, Skip(s, i))
  }

  function LexFrom(s: string, j: nat): seq<Tok>
    requires j <= |s| && Skip(s, j) == j
    decreases |s| - j
  {
    if j == |s| then [] else
      var t := GetToken(s, j);
      [TokAt(s, t)] + LexFrom(s, t.next)
  }

  lemma SameToken(s: string, i: nat)
    requires i <= |s|
    ensures GetToken(s, Skip(s, i)) == GetToken(s, i) && Skip(s, Skip(s, i)) == Skip(s, i)
  {}

  lemma LexFirst(s: string, i: nat)
    requires i <= |s| && Skip(s, i) < |s|
    ensures GetToken(s, i).next > i
    ensures Lex(s, i) == [TokAt(s, GetToken(s, i))] + Lex(s, GetToken(s, i).next)
  {
    SameToken(s, i);
  }

  lemma LexSkip(s: string, i: nat)
    requires i <= |s|
    ensures Lex(s, Skip(s, i)) == Lex(s, i)
  {
    SameToken(s, i);
  }

  lemma TokWritten(s: string, i: nat)
    requires i <= |s| && Skip(s, i) < |s|
    ensures var t := GetToken(s, i);
            && t.q == Skip(s, i) && t.next == Skip(s, t.eq) && t.q < t.eq
            && Written(TokAt(s, t)) == s[t.q..t.eq] && Proper(TokAt(s, t))
  {
  }

  lemma {:induction false} LexProper(s: string, i: nat)
    requires i <= |s|
    ensures AllProper(Lex(s, i))
    decreases |s| - i
  {
    if Skip(s, i) < |s| {
      LexFirst(s, i);
      TokWritten(s, i);
      LexProper(s, GetToken(s, i).next);
    }
  }

  /** The kind of the token at the cursor, as peek sees it. */
  lemma PeekToken(s: string, i: nat)
    requires i <= |s| && Skip(s, i) < |s|
    ensures var t := TokAt(s, GetToken(s, i));
            var c := s[Skip(s, i)];
            if Symbol(c) then t.Mark? && (t.kind == c || (c == '>' && t.kind == '+')) else t.Name?
  {}

  /** peek looks at the next token. */
  lemma PeekLex(s: string, i: nat, marks: set<char>)
    requires i <= |s| && (marks == {'<', '>', '+'} || marks <= {'|', ')', '&', ';', '('})
    ensures Lex(s, i) == [] <==> Skip(s, i) == |s|
    ensures Peek(s, i, marks - {'+'}) == Starts(Lex(s, i), marks)
  {
    if Skip(s, i) < |s| {
      LexFirst(s, i);
      PeekToken(s, i);
    }
  }

  /** The blanks before a token and after the last one. */
  lemma {:induction false} SkipBlank(s: string, i: nat, j: nat)
    requires i <= j <= |s| && Blank(s[i..j]) && (j < |s| ==> !White(s[j]))
    ensures Skip(s, i) == j
    decreases j - i
  {
    if i < j {
      assert s[i..j][0] == s[i] && s[i + 1..j] == s[i..j][1..];
      SkipBlank(s, i + 1, j);
    }
  }

  lemma Cut(s: string, i: nat, gap: string, w: string, rest: string)
    requires i <= |s| && s[i..] == gap + w + rest
    ensures var q := i + |gap|;
            var e := q + |w|;
            e <= |s| && s[i..q] == gap && s[q..e] == w && s[e..] == rest && (e < |s| ==> s[e] == rest[0])
  {
    var q := i + |gap|;
    var e := q + |w|;
    assert |s| - i == |gap| + |w| + |rest|;
    assert s[i..q] == s[i..][..|gap|] && s[q..e] == s[i..][|gap|..e - i] && s[e..] == s[i..][e - i..];
  }

  /** The token after the blanks at i, given what follows it. */
  lemma TokenAt(s: string, i: nat, q: nat, t: Tok)
    requires i <= q <= |s| && Blank(s[i..q]) && Proper(t) && At(s, q, Written(t))
    requires var e := q + |Written(t)|;
             e < |s| ==> !(t.Name? && WordChar(s[e])) && !(t == Mark('>') && s[e] == '>')
    ensures Skip(s, i) == q < |s| && GetToken(s, i).next == Skip(s, q + |Written(t)|)
    ensures TokAt(s, GetToken(s, i)) == t
  {
    var w, e := Written(t), q + |Written(t)|;
    assert s[q] == s[q..e][0] == w[0];
    SkipBlank(s, i, q);
    if t.Name? {
      WordToken(s, q, w);
    } else if t.kind == '+' {
      assert s[q + 1] == s[q..e][1] == w[1];
    }
  }

  /** What the rest of a line begins with does not prolong the token before it. */
  lemma RestStart(t: Tok, x: Spelling)
    requires Spaced(x) && Letters(x) != "" && (Apart(x) || !Clash(t, x.tok))
    ensures !(t.Name? && WordChar(Letters(x)[0])) && !(t == Mark('>') && Letters(x)[0] == '>')
  {
    if x.gap != "" {
      assert Letters(x)[0] == x.gap[0];
    } else if x.Spell? {
      assert Letters(x)[0] == Written(x.tok)[0];
    }
  }

  lemma LexAt(s: string, i: nat, q: nat, e: nat, t: Tok)
    requires i <= q <= e <= |s| && Blank(s[i..q]) && Proper(t) && s[q..e] == Written(t)
    requires e < |s| ==> !(t.Name? && WordChar(s[e])) && !(t == Mark('>') && s[e] == '>')
    ensures Lex(s, i) == [t] + Lex(s, e)
  {
    TokenAt(s, i, q, t);
    LexFirst(s, i);
    LexSkip(s, e);
  }

  lemma LexTurn(s: string, i: nat, gap: string, t: Tok, rest: string) returns (e: nat)
    requires i <= |s| && s[i..] == gap + Written(t) + rest && Blank(gap) && Proper(t)
    requires rest != "" ==> !(t.Name? && WordChar(rest[0])) && !(t == Mark('>') && rest[0] == '>')
    ensures e <= |s| && s[e..] == rest && Lex(s, i) == [t] + Lex(s, e)
  {
    var w := Written(t);
    e := i + |gap| + |w|;
    Cut(s, i, gap, w, rest);
    LexAt(s, i, i + |gap|, e, t);
  }

  lemma {:induction false} LettersLex(s: string, i: nat, x: Spelling)
    requires i <= |s| && Spaced(x) && s[i..] == Letters(x)
    ensures Lex(s, i) == Toks(x)
    decreases x
  {
    match x
    case Close(gap) =>
      assert s[i..|s|] == s[i..];
      SkipBlank(s, i, |s|);
    case Spell(gap, tok, rest) =>
      if Letters(rest) != "" {
        RestStart(tok, rest);
      }
      var e := LexTurn(s, i, gap, tok, Letters(rest));
      LettersLex(s, e, rest);
  }

  lemma {:induction false} SkipsBlank(s: string, i: nat)
    requires i <= |s|
    ensures Blank(s[i..Skip(s, i)])
    decreases |s| - i
  {
    if i < |s| && White(s[i]) {
      SkipsBlank(s, i + 1);
      assert s[i..Skip(s, i)] == [s[i]] + s[i + 1..Skip(s, i)];
    }
  }

  /** Two tokens that stand together are two tokens. */
  lemma NoClash(s: string, i: nat)
    requires i <= |s| && Skip(s, i) < |s|
    ensures var t := GetToken(s, i);
            var us := Lex(s, t.eq);
            us != [] && Clash(TokAt(s, t), us[0]) ==> Skip(s, t.eq) != t.eq
  {
  }

  /** How the line is spelled from i on. */
  function SpellingOf(s: string, i: nat): (x: Spelling)
    requires i <= |s|
    ensures x.gap == s[i..Skip(s, i)] && (x.Spell? <==> Skip(s, i) < |s|)
    decreases |s| - i
  {
    if Skip(s, i) == |s| then Close(s[i..]) else
      var t := GetToken(s, i);
      Spell(s[i..Skip(s, i)], TokAt(s, t), SpellingOf(s, t.eq))
  }

  lemma LexToEnd(s: string, i: nat)
    requires i <= |s| && Skip(s, i) < |s|
    ensures var t := GetToken(s, i); Lex(s, i) == [TokAt(s, t)] + Lex(s, t.eq)
  {
    TokWritten(s, i);
    LexFirst(s, i);
    LexSkip(s, GetToken(s, i).eq);
  }

  lemma LettersToEnd(s: string, i: nat)
    requires i <= |s| && Skip(s, i) < |s|
    ensures var t := GetToken(s, i); s[i..] == s[i..Skip(s, i)] + Written(TokAt(s, t)) + s[t.eq..]
  {
    TokWritten(s, i);
    var t := GetToken(s, i);
    assert s[i..] == s[i..t.q] + s[t.q..t.eq] + s[t.eq..];
  }

  lemma SpacedMore(s: string, i: nat, x: Spelling)
    requires i <= |s| && Skip(s, i) < |s| && Spaced(x)
    requires var e := GetToken(s, i).eq;
             Toks(x) == Lex(s, e) && x.gap == s[e..Skip(s, e)] && (x.Spell? <==> Skip(s, e) < |s|)
    ensures Spaced(Spell(s[i..Skip(s, i)], TokAt(s, GetToken(s, i)), x))
  {
    SkipsBlank(s, i);
    TokWritten(s, i);
    NoClash(s, i);
  }

  lemma {:induction false} LexLetters(s: string, i: nat)
    requires i <= |s|
    ensures var x := SpellingOf(s, i); Spaced(x) && Letters(x) == s[i..] && Toks(x) == Lex(s, i)
    decreases |s| - i
  {
    if Skip(s, i) < |s| {
      TokWritten(s, i);
      LexLetters(s, GetToken(s, i).eq);
      SpacedMore(s, i, SpellingOf(s, GetToken(s, i).eq));
      LettersToEnd(s, i);
      LexToEnd(s, i);
    } else {
      SkipsBlank(s, i);
    }
  }

  /** The tokens of a line are the only ones that spell it. */
  lemma LexExact(s: string, ts: seq<Tok>)
    ensures ts == Lex(s, 0) <==> exists x :: Spaced(x) && Letters(x) == s && Toks(x) == ts
  {
    assert s[0..] == s;
    LexLetters(s, 0);
    assert Spaced(SpellingOf(s, 0));
    if x :| Spaced(x) && Letters(x) == s && Toks(x) == ts {
      LettersLex(s, 0, x);
    }
  }

  // ---------- the parser reads tokens ----------

  /** A result of the parser says what a reading of the tokens says, and stops where it stops. */
  predicate Agrees(s: string, r: Parsed<PCmd>, t: Read<Cmd>) {
    forall k {:trigger See(k)} :: k == INSIDE ==> Same(s, r, t)
  }

  predicate Same(s: string, r: Parsed<PCmd>, t: Read<Cmd>) {
    if r.None? then t.None? else
      && t.Some? && r.value.1 <= |s| && Tokens(s, r.value.0)
      && Words(s, r.value.0) == t.value.0 && Lex(s, r.value.1) == t.value.1
  }

  /** c under the redirections rs, the first innermost. */
  function Under(s: string, c: Cmd, rs: seq<Rd>): Cmd
    requires TokenRedirs(s, rs)
    decreases |rs|
  {
    if rs == [] then c else
      var rd := rs[|rs| - 1];
      Redir(Under(s, c, rs[..|rs| - 1]), Text(s, rd.file), rd.input)
  }

  lemma {:induction false} WrapUnder(s: string, p: PCmd, rs: seq<Rd>)
    requires Tokens(s, p) && TokenRedirs(s, rs)
    ensures Tokens(s, Wrap(p, rs)) && Words(s, Wrap(p, rs)) == Under(s, Words(s, p), rs)
  {
    if rs != [] {
      WrapUnder(s, p, rs[..|rs| - 1]);
    }
  }

  lemma UnderSnoc(s: string, c: Cmd, rs: seq<Rd>, rd: Rd)
    requires TokenRedirs(s, rs) && OneWord(s, rd.file)
    ensures TokenRedirs(s, rs + [rd])
    ensures Under(s, c, rs + [rd]) == Redir(Under(s, c, rs), Text(s, rd.file), rd.input)
  {
    assert (rs + [rd])[..|rs|] == rs;
  }

  lemma RedirectedCons(c: Cmd, x: Item, items: seq<Item>)
    ensures Redirected(c, [x] + items) == Redirected(if x.File? then Redir(c, x.word, x.op == '<') else c, items)
  {
    assert ([x] + items)[1..] == items;
  }

  /** A token read from the line. */
  lemma TokOf(s: string, i: nat) returns (t: Token)
    requires i <= |s| && Lex(s, i) != []
    ensures t == GetToken(s, i) && i < t.next <= |s| && Lex(s, i)[1..] == Lex(s, t.next)
    ensures Lex(s, i)[0] == if t.kind == 'a' then Name(s[t.q..t.eq]) else Mark(t.kind)
    ensures t.kind == 'a' ==> OneWord(s, Span(t.q, t.eq))
  {
    PeekLex(s, i, {});
    LexFirst(s, i);
    t := GetToken(s, i);
  }

  /** parseredirs against ReadFiles. */
  predicate FilesAgree(s: string, c: Cmd, rs: seq<Rd>, r: Parsed<seq<Rd>>, t: Read<seq<Item>>)
    requires TokenRedirs(s, rs)
  {
    if r.None? then t.None? else
      && t.Some? && r.value.1 <= |s| && TokenRedirs(s, r.value.0)
      && Lex(s, r.value.1) == t.value.1 && !Starts(t.value.1, {'<', '>', '+'})
      && Under(s, c, r.value.0) == Redirected(Under(s, c, rs), t.value.0)
      && AllFiles(t.value.0)
  }

  lemma {:induction false} RedirsAgree(s: string, i: nat, c: Cmd, rs: seq<Rd>)
    requires i <= |s| && TokenRedirs(s, rs)
    ensures FilesAgree(s, c, rs, Redirs(s, i, rs), ReadFiles(Lex(s, i)))
    decreases |s| - i
  {
    PeekLex(s, i, {'<', '>', '+'});
    if !Starts(Lex(s, i), {'<', '>', '+'}) {
      LexSkip(s, i);
    } else {
      var t := TokOf(s, i);
      if Lex(s, t.next) != [] {
        var f := TokOf(s, t.next);
        if f.kind == 'a' {
          var rd := Rd(Span(f.q, f.eq), t.kind == '<');
          UnderSnoc(s, c, rs, rd);
          RedirsAgree(s, f.next, c, rs + [rd]);
          FilesMore(s, i, c, rs, t, f);
        }
      }
    }
  }

  /** One more redirection. */
  lemma FilesMore(s: string, i: nat, c: Cmd, rs: seq<Rd>, t: Token, f: Token)
    requires i <= |s| && TokenRedirs(s, rs) && Lex(s, i) != [] && Starts(Lex(s, i), {'<', '>', '+'})
    requires t == GetToken(s, i) && t.next <= |s| && Lex(s, i)[1..] == Lex(s, t.next) && Lex(s, i)[0] == Mark(t.kind)
    requires Lex(s, t.next) != [] && f == GetToken(s, t.next) && f.kind == 'a'
    requires f.next <= |s| && Lex(s, t.next)[1..] == Lex(s, f.next)
    requires OneWord(s, Span(f.q, f.eq)) && Lex(s, t.next)[0] == Name(s[f.q..f.eq])
    requires var rd := Rd(Span(f.q, f.eq), t.kind == '<');
             && TokenRedirs(s, rs + [rd])
             && Under(s, c, rs + [rd]) == Redir(Under(s, c, rs), Text(s, rd.file), rd.input)
             && FilesAgree(s, c, rs + [rd], Redirs(s, f.next, rs + [rd]), ReadFiles(Lex(s, f.next)))
    ensures FilesAgree(s, c, rs, Redirs(s, f.next, rs + [Rd(Span(f.q, f.eq), t.kind == '<')]), ReadFiles(Lex(s, i)))
  {
    var ts := Lex(s, i);
    assert ts[2..] == ts[1..][1..] == Lex(s, f.next) && ts[1] == ts[1..][0];
    var x := File(t.kind, s[f.q..f.eq]);
    assert ReadFiles(ts) == Before(x, ReadFiles(ts[2..]));
    if ReadFiles(ts[2..]).Some? {
      RedirectedCons(Under(s, c, rs), x, ReadFiles(ts[2..]).value.0);
    }
  }

  /** The items of a simple command begin with its redirections up to the first argument. */
  lemma {:induction false} FilesThenItems(ts: seq<Tok>, n: nat)
    ensures ReadFiles(ts).None? ==> ReadItems(ts, n).None?
    ensures ReadFiles(ts).Some? ==>
              var (files, rest) := ReadFiles(ts).value;
              var r := ReadItems(rest, n);
              ReadItems(ts, n) == if r.None? then None else Some((files + r.value.0, r.value.1))
    decreases |ts|
  {
    if Starts(ts, {'<', '>', '+'}) && |ts| >= 2 && ts[1].Name? {
      FilesThenItems(ts[2..], n);
      if ReadFiles(ts).Some? && ReadItems(ReadFiles(ts).value.1, n).Some? {
        var (files, rest) := ReadFiles(ts[2..]).value;
        var x, items := File(ts[0].kind, ts[1].word), ReadItems(rest, n).value.0;
        assert [x] + files + items == [x] + (files + items);
      }
    } else if ReadItems(ts, n).Some? {
      assert [] + ReadItems(ts, n).value.0 == ReadItems(ts, n).value.0;
    }
  }

  predicate AllFiles(files: seq<Item>) {
    forall k :: 0 <= k < |files| ==> files[k].File?
  }

  lemma {:induction false} RedirectedConcat(c: Cmd, files: seq<Item>, items: seq<Item>)
    requires AllFiles(files)
    ensures Redirected(c, files + items) == Redirected(Redirected(c, files), items)
    ensures Argv(files + items) == Argv(items)
    decreases |files|
  {
    if files == [] {
      assert files + items == items;
    } else {
      var x := files[0];
      RedirectedConcat(Redir(c, x.word, x.op == '<'), files[1..], items);
      assert files + items == [x] + (files[1..] + items);
      RedirectedCons(c, x, files[1..] + items);
      ItemsCons(x, files[1..] + items);
    }
  }

  /** What a simple command comes to when argv and rs have been read and items are still to come. */
  function Coming(s: string, argv: seq<Span>, rs: seq<Rd>, t: Read<seq<Item>>): Read<Cmd>
    requires Tokens(s, PExec(argv)) && TokenRedirs(s, rs)
  {
    if t.None? then None else
      var (items, rest) := t.value;
      Some((Redirected(Under(s, Exec(Texts(s, argv) + Argv(items)), rs), items), rest))
  }

  lemma ArgsOver(s: string, i: nat, argv: seq<Span>, rs: seq<Rd>)
    requires i <= |s| && Tokens(s, PExec(argv)) && TokenRedirs(s, rs)
    ensures Agrees(s, Some((Wrap(PExec(argv), rs), Skip(s, i))), Coming(s, argv, rs, Some(([], Lex(s, i)))))
  {
    assert See(INSIDE);
    LexSkip(s, i);
    WrapUnder(s, PExec(argv), rs);
    assert Texts(s, argv) + Argv([]) == Texts(s, argv);
  }

  lemma TextsSnoc(s: string, argv: seq<Span>, w: Span)
    requires OneWord(s, w) && forall k :: 0 <= k < |argv| ==> OneWord(s, argv[k])
    ensures Texts(s, argv + [w]) == Texts(s, argv) + [Text(s, w)]
  {}

  lemma ArgvMore(ws: seq<string>, w: string, files: seq<Item>, items: seq<Item>)
    requires AllFiles(files)
    ensures ws + [w] + Argv(items) == ws + Argv([Arg(w)] + (files + items))
  {
    ItemsCons(Arg(w), files + items);
    RedirectedConcat(Exec([]), files, items);
    assert ws + [w] + Argv(items) == ws + ([w] + Argv(items));
  }

  lemma RedirectedMore(c: Cmd, w: string, files: seq<Item>, items: seq<Item>)
    requires AllFiles(files)
    ensures Redirected(c, [Arg(w)] + (files + items)) == Redirected(Redirected(c, files), items)
  {
    RedirectedCons(c, Arg(w), files + items);
    RedirectedConcat(c, files, items);
  }

  /** An argument w, the redirections after it, and the other items. */
  lemma ComingMore(s: string, argv: seq<Span>, rs: seq<Rd>, w: Span, rs': seq<Rd>, files: seq<Item>, items: seq<Item>,
                   rest: seq<Tok>)
    requires Tokens(s, PExec(argv)) && TokenRedirs(s, rs) && OneWord(s, w) && TokenRedirs(s, rs')
    requires |argv| + 1 < MAXARGS && AllFiles(files)
    requires var c := Exec(Texts(s, argv + [w]) + Argv(items));
             Under(s, c, rs') == Redirected(Under(s, c, rs), files)
    ensures Coming(s, argv + [w], rs', Some((items, rest))) ==
            Coming(s, argv, rs, Some(([Arg(Text(s, w))] + (files + items), rest)))
  {
    TextsSnoc(s, argv, w);
    ArgvMore(Texts(s, argv), Text(s, w), files, items);
    var c := Exec(Texts(s, argv + [w]) + Argv(items));
    RedirectedMore(Under(s, c, rs), Text(s, w), files, items);
  }

  lemma {:induction false} ArgsAgree(s: string, i: nat, argv: seq<Span>, rs: seq<Rd>)
    requires i <= |s| && !Starts(Lex(s, i), {'<', '>', '+'}) && Tokens(s, PExec(argv)) && TokenRedirs(s, rs)
    ensures Agrees(s, Args(s, i, argv, rs), Coming(s, argv, rs, ReadItems(Lex(s, i), |argv|)))
    decreases |s| - i, 1
  {
    var ts := Lex(s, i);
    PeekLex(s, i, {'|', ')', '&', ';'});
    if ts == [] || Starts(ts, {'|', ')', '&', ';'}) {
      ArgsOver(s, i, argv, rs);
    } else {
      var t := TokOf(s, i);
      if t.kind == 'a' && |argv| + 1 < MAXARGS {
        ArgsMore(s, i, argv, rs, t);
      } else {
        assert See(INSIDE);
      }
    }
  }

  function Fronted(w: string, files: seq<Item>, t: Read<seq<Item>>): Read<seq<Item>> {
    if t.None? then None else Some(([Arg(w)] + (files + t.value.0), t.value.1))
  }

  /** An argument, the redirections after it, and what is read after those. */
  lemma ItemsMore(ts: seq<Tok>, n: nat)
    requires ts != [] && ts[0].Name? && n + 1 < MAXARGS
    ensures ReadFiles(ts[1..]).None? ==> ReadItems(ts, n).None?
    ensures ReadFiles(ts[1..]).Some? ==>
              var (files, rest) := ReadFiles(ts[1..]).value;
              ReadItems(ts, n) == Fronted(ts[0].word, files, ReadItems(rest, n + 1))
  {
    FilesThenItems(ts[1..], n + 1);
  }

  lemma ArgsTurnTo(s: string, i: nat, argv: seq<Span>, rs: seq<Rd>)
    requires i <= |s| && !Peek(s, i, {'|', ')', '&', ';'}) && GetToken(s, i).kind == 'a' && |argv| + 1 < MAXARGS
    ensures var t := GetToken(s, i);
            var r := Redirs(s, t.next, rs);
            Args(s, i, argv, rs) ==
            if r.None? then None else Args(s, r.value.1, argv + [Span(t.q, t.eq)], r.value.0)
  {}

  lemma ComingAgrees(s: string, j: nat, argv: seq<Span>, rs: seq<Rd>, w: Span, rs': seq<Rd>, files: seq<Item>,
                     t: Read<seq<Item>>)
    requires j <= |s| && Tokens(s, PExec(argv)) && TokenRedirs(s, rs) && OneWord(s, w) && TokenRedirs(s, rs')
    requires |argv| + 1 < MAXARGS && AllFiles(files)
    requires t.Some? ==>
               var c := Exec(Texts(s, argv + [w]) + Argv(t.value.0));
               Under(s, c, rs') == Redirected(Under(s, c, rs), files)
    requires Agrees(s, Args(s, j, argv + [w], rs'), Coming(s, argv + [w], rs', t))
    ensures Agrees(s, Args(s, j, argv + [w], rs'), Coming(s, argv, rs, Fronted(Text(s, w), files, t)))
  {
    if t.Some? {
      ComingMore(s, argv, rs, w, rs', files, t.value.0, t.value.1);
    }
  }

  /** The cursor is at an argument. */
  predicate AtArg(s: string, i: nat, argv: seq<Span>, t: Token) {
    && i < t.next <= |s| && t == GetToken(s, i) && t.kind == 'a' && OneWord(s, Span(t.q, t.eq))
    && Lex(s, i) != [] && Lex(s, i)[0] == Name(s[t.q..t.eq]) && Lex(s, i)[1..] == Lex(s, t.next)
    && !Peek(s, i, {'|', ')', '&', ';'}) && |argv| + 1 < MAXARGS
  }

  lemma ArgsStuck(s: string, i: nat, argv: seq<Span>, rs: seq<Rd>, t: Token)
    requires AtArg(s, i, argv, t) && TokenRedirs(s, rs) && Redirs(s, t.next, rs).None?
    ensures Args(s, i, argv, rs).None? && ReadItems(Lex(s, i), |argv|).None?
  {
    RedirsTogether(s, t.next, rs);
    ItemsMore(Lex(s, i), |argv|);
  }

  lemma ItemsOnward(s: string, i: nat, argv: seq<Span>, rs: seq<Rd>, t: Token)
    requires AtArg(s, i, argv, t) && TokenRedirs(s, rs) && Redirs(s, t.next, rs).Some?
    ensures ReadFiles(Lex(s, t.next)).Some?
    ensures var (files, rest) := ReadFiles(Lex(s, t.next)).value;
            ReadItems(Lex(s, i), |argv|) == Fronted(Text(s, Span(t.q, t.eq)), files, ReadItems(rest, |argv| + 1))
  {
    RedirsTogether(s, t.next, rs);
    ItemsMore(Lex(s, i), |argv|);
  }

  lemma {:induction false} ArgsMore(s: string, i: nat, argv: seq<Span>, rs: seq<Rd>, t: Token)
    requires AtArg(s, i, argv, t) && Tokens(s, PExec(argv)) && TokenRedirs(s, rs)
    ensures Agrees(s, Args(s, i, argv, rs), Coming(s, argv, rs, ReadItems(Lex(s, i), |argv|)))
    decreases |s| - i, 0
  {
    ArgsTurnTo(s, i, argv, rs);
    match Redirs(s, t.next, rs)
    case None =>
      ArgsStuck(s, i, argv, rs, t);
      NothingRead(s);
    case Some((rs', j)) =>
      ItemsOnward(s, i, argv, rs, t);
      ArgsAfterFiles(s, t.next, argv, rs, Span(t.q, t.eq), rs', j);
  }

  lemma RedirsTogether(s: string, i: nat, rs: seq<Rd>)
    requires i <= |s| && TokenRedirs(s, rs)
    ensures Redirs(s, i, rs).None? == ReadFiles(Lex(s, i)).None?
  {
    RedirsAgree(s, i, Exec([]), rs);
  }

  lemma NothingRead(s: string)
    ensures Agrees(s, None, None)
  {
    assert See(INSIDE);
  }

  lemma RedirsUnder(s: string, i: nat, c: Cmd, rs: seq<Rd>)
    requires i <= |s| && TokenRedirs(s, rs) && Redirs(s, i, rs).Some? && ReadFiles(Lex(s, i)).Some?
    ensures var (rs', j) := Redirs(s, i, rs).value;
            var (files, rest) := ReadFiles(Lex(s, i)).value;
            && TokenRedirs(s, rs') && Lex(s, j) == rest && !Starts(rest, {'<', '>', '+'}) && AllFiles(files)
            && Under(s, c, rs') == Redirected(Under(s, c, rs), files)
  {
    RedirsAgree(s, i, c, rs);
  }

  /** The arguments after one with its redirections. */
  lemma {:induction false} ArgsAfterFiles(s: string, i: nat, argv: seq<Span>, rs: seq<Rd>, w: Span,
                                          rs': seq<Rd>, j: nat)
    requires i <= |s| && Tokens(s, PExec(argv)) && TokenRedirs(s, rs) && |argv| + 1 < MAXARGS && OneWord(s, w)
    requires Redirs(s, i, rs) == Some((rs', j)) && ReadFiles(Lex(s, i)).Some?
    ensures var (files, rest) := ReadFiles(Lex(s, i)).value;
            var t := ReadItems(rest, |argv| + 1);
            Agrees(s, Args(s, j, argv + [w], rs'), Coming(s, argv, rs, Fronted(Text(s, w), files, t)))
    decreases |s| - i, 2
  {
    var (files, rest) := ReadFiles(Lex(s, i)).value;
    var t := ReadItems(rest, |argv| + 1);
    RedirsUnder(s, i, Exec([]), rs);
    ArgsAgree(s, j, argv + [w], rs');
    if t.Some? {
      RedirsUnder(s, i, Exec(Texts(s, argv + [w]) + Argv(t.value.0)), rs);
    }
    ComingAgrees(s, j, argv, rs, w, rs', files, t);
  }

  function UnitValue(ts: seq<Tok>): Read<Cmd> {
    match ReadUnit(ts)
    case None => None
    case Some((u, rest)) => Some((UnitMeans(u), rest))
  }

  function RowValue(ts: seq<Tok>): Read<Cmd> {
    match ReadRow(ts)
    case None => None
    case Some((r, rest)) => Some((RowMeans(r), rest))
  }

  function ScriptValue(ts: seq<Tok>): Read<Cmd> {
    match ReadScript(ts)
    case None => None
    case Some((x, rest)) => Some((ScriptMeans(x), rest))
  }

  lemma PlainAgree(s: string, i: nat)
    requires i <= |s| && !Peek(s, i, {'('})
    ensures Same(s, Simple(s, i), UnitValue(Lex(s, i)))
  {
    assert See(INSIDE);
    var ts := Lex(s, i);
    PeekLex(s, i, {'('});
    FilesThenItems(ts, 0);
    RedirsAgree(s, i, Exec([]), []);
    match Redirs(s, i, [])
    case None =>
    case Some((rs, j)) =>
      var (files, rest) := ReadFiles(ts).value;
      ArgsAgree(s, j, [], rs);
      var r := ReadItems(rest, 0);
      if r.Some? {
        PlainMeans(s, i, rs, files, r.value.0);
      }
  }

  /** The redirections before the first argument, and the other items. */
  lemma PlainMeans(s: string, i: nat, rs: seq<Rd>, files: seq<Item>, items: seq<Item>)
    requires i <= |s| && TokenRedirs(s, rs) && ReadFiles(Lex(s, i)).Some? && ReadFiles(Lex(s, i)).value.0 == files
    requires Redirs(s, i, []).Some? && Redirs(s, i, []).value.0 == rs
    ensures UnitMeans(Plain(files + items)) == Redirected(Under(s, Exec(Texts(s, []) + Argv(items)), rs), items)
  {
    var c := Exec(Texts(s, []) + Argv(items));
    RedirsAgree(s, i, c, []);
    RedirectedConcat(c, files, items);
    assert Texts(s, []) + Argv(items) == Argv(files + items);
  }

  lemma {:induction false} UnitAgree(s: string, i: nat)
    requires i <= |s|
    ensures Same(s, Simple(s, i), UnitValue(Lex(s, i)))
    decreases |s| - i, 1
  {
    if Peek(s, i, {'('}) {
      ParenAgree(s, i);
    } else {
      PlainAgree(s, i);
    }
  }

  lemma {:induction false} ParenAgree(s: string, i: nat)
    requires i <= |s| && Peek(s, i, {'('})
    ensures Same(s, Block(s, i), UnitValue(Lex(s, i)))
    decreases |s| - i, 0
  {
    PeekLex(s, i, {'('});
    var t := TokOf(s, i);
    ScriptAgree(s, t.next);
    match Line(s, t.next)
    case None =>
    case Some((c, j)) =>
      PeekLex(s, j, {')'});
      if Peek(s, j, {')'}) {
        var u := TokOf(s, j);
        RedirsAgree(s, u.next, Words(s, c), []);
        match Redirs(s, u.next, [])
        case None =>
        case Some((rs, k)) => WrapUnder(s, c, rs);
      }
  }

  lemma {:induction false} RowAgree(s: string, i: nat)
    requires i <= |s|
    ensures Same(s, PipeLine(s, i), RowValue(Lex(s, i)))
    decreases |s| - i, 2
  {
    UnitAgree(s, i);
    match Simple(s, i)
    case None =>
    case Some((c, j)) =>
      PeekLex(s, j, {'|'});
      if Peek(s, j, {'|'}) {
        var t := TokOf(s, j);
        RowAgree(s, t.next);
      } else {
        LexSkip(s, j);
      }
  }

  lemma {:induction false} BacksAgree(s: string, i: nat, c: PCmd)
    requires i <= |s| && Tokens(s, c)
    ensures var (p, j) := Backs(s, i, c);
            var (n, rest) := ReadAmps(Lex(s, i));
            Tokens(s, p) && Words(s, p) == InBack(Words(s, c), n) && Lex(s, j) == rest
    decreases |s| - i
  {
    PeekLex(s, i, {'&'});
    if Peek(s, i, {'&'}) {
      var t := TokOf(s, i);
      BacksAgree(s, t.next, PBack(c));
    } else {
      LexSkip(s, i);
    }
  }

  lemma {:induction false} ScriptAgree(s: string, i: nat)
    requires i <= |s|
    ensures Same(s, Line(s, i), ScriptValue(Lex(s, i)))
    decreases |s| - i, 3
  {
    RowAgree(s, i);
    match PipeLine(s, i)
    case None =>
    case Some((c0, j0)) =>
      BacksAgree(s, j0, c0);
      var (c, j) := Backs(s, j0, c0);
      PeekLex(s, j, {';'});
      if Peek(s, j, {';'}) {
        var t := TokOf(s, j);
        ScriptAgree(s, t.next);
      } else {
        LexSkip(s, j);
      }
  }

  // ---------- the language of the shell ----------

  /** The line s, spelled as y, is the script x. */
  predicate Writes(s: string, y: Spelling, x: Script) {
    Letters(y) == s && Spaced(y) && Toks(y) == ScriptToks(x) && ScriptOk(x)
  }

  lemma ParseReads(s: string)
    ensures var r := ReadScript(Lex(s, 0));
            Parse(s) == if r.Some? && r.value.1 == [] then Some(ScriptMeans(r.value.0)) else None
  {
    ScriptAgree(s, 0);
    if Line(s, 0).Some? {
      PeekLex(s, Line(s, 0).value.1, {});
    }
  }

  /** Every line of the language is accepted, and its command is the one it stands for. */
  lemma ParsesScripts(s: string, y: Spelling, x: Script)
    requires Writes(s, y, x)
    ensures Parse(s) == Some(ScriptMeans(x))
  {
    assert s[0..] == s;
    LettersLex(s, 0, y);
    ParseReads(s);
    ScriptWritten(x, []);
    assert ScriptToks(x) + [] == ScriptToks(x);
  }

  /** Every accepted line is of the language. */
  lemma ParsedIsScript(s: string) returns (y: Spelling, x: Script)
    requires Parse(s).Some?
    ensures Writes(s, y, x) && Parse(s) == Some(ScriptMeans(x))
  {
    ParseReads(s);
    var ts := Lex(s, 0);
    LexProper(s, 0);
    ScriptRead(ts);
    x := ReadScript(ts).value.0;
    assert ScriptToks(x) + [] == ScriptToks(x);
    LexExact(s, ts);
    y :| Spaced(y) && Letters(y) == s && Toks(y) == ts;
  }

  /** The shell parses s as c if and only if s, in some spacing, is a script that stands for c. */
  lemma GrammarExact(s: string, c: Cmd)
    ensures Parse(s) == Some(c) <==> exists y, x :: Writes(s, y, x) && ScriptMeans(x) == c
  {
    if Parse(s) == Some(c) {
      var y, x := ParsedIsScript(s);
    }
    if y, x :| Writes(s, y, x) && ScriptMeans(x) == c {
      ParsesScripts(s, y, x);
    }
  }
}
