/**
 match, matchhere and matchstar of grep.c (The Practice of Programming, chapter 9). Strings are the
 characters before the terminating NUL.
 */
module Grep {
  datatype Item = Lit(c: char) | Dot | Star(c: char) | Eol

  /** What a pattern says: * binds to the character before it, and only a final $ is special. */
  function Parse(re: string): seq<Item> {
    if re == [] then []
    else if |re| >= 2 && re[1] == '*' then [Star(re[0])] + Parse(re[2..])
    else if re == ['$'] then [Eol]
    else [if re[0] == '.' then Dot else Lit(re[0])] + Parse(re[1..])
  }

  /** How an item is written. */
  function Written(it: Item): (s: string)
    ensures s != ""
  {
    match it
    case Lit(c) => [c]
    case Dot => "."
    case Star(c) => [c, '*']
    case Eol => "$"
  }

  function Show(items: seq<Item>): string {
    if items == [] then "" else Written(items[0]) + Show(items[1..])
  }

  /** No item reads as something else: a * after a character, a literal dot, a $ at the end or an Eol before it. */
  predicate Plain(items: seq<Item>) {
    items == [] || (
      && (items[0].Star? || |items| == 1 || Written(items[1])[0] != '*')
      && (items[0].Lit? ==> items[0].c != '.' && (items[0].c == '$' ==> |items| > 1))
      && (items[0].Eol? ==> |items| == 1)
      && Plain(items[1..]))
  }

  lemma ShowStart(items: seq<Item>)
    ensures items != [] ==> Show(items) != "" && Show(items)[0] == Written(items[0])[0]
  {
  }

  lemma {:induction false} ParseShows(re: string)
    ensures Show(Parse(re)) == re && Plain(Parse(re))
    decreases |re|
  {
    if re != [] {
      var items := Parse(re);
      var rest := if |re| >= 2 && re[1] == '*' then re[2..] else re[1..];
      ParseShows(rest);
      assert items[1..] == Parse(rest);
      ShowStart(Parse(rest));
      assert re == Written(items[0]) + rest;
    }
  }

  lemma {:induction false} ShowParses(items: seq<Item>)
    requires Plain(items)
    ensures Parse(Show(items)) == items
    decreases |items|
  {
    if items != [] {
      var re, w := Show(items), Written(items[0]);
      ShowParses(items[1..]);
      ShowStart(items[1..]);
      assert re[|w|..] == Show(items[1..]) && items == [items[0]] + items[1..];
    }
  }

  /** A pattern says exactly the one list of items that is written as it. */
  lemma ParseExact(re: string, items: seq<Item>)
    ensures items == Parse(re) <==> Plain(items) && Show(items) == re
  {
    ParseShows(re);
    if Plain(items) && Show(items) == re {
      ShowParses(items);
    }
  }

  /** The texts one item stands for. */
  predicate Piece(it: Item, s: string) {
    match it
    case Lit(c) => s == [c]
    case Dot => |s| == 1
    case Star(c) => forall i :: 0 <= i < |s| ==> c == '.' || s[i] == c
    case Eol => s == []
  }

  function Flat(pieces: seq<string>): string {
    if pieces == [] then [] else pieces[0] + Flat(pieces[1..])
  }

  /** A beginning of the text cut into one piece per item; an Eol must have the end of the text behind it. */
  predicate Splits(items: seq<Item>, pieces: seq<string>, text: string) {
    |pieces| == |items| && Flat(pieces) <= text &&
    (forall i :: 0 <= i < |items| ==> Piece(items[i], pieces[i])) &&
    (items != [] && items[|items| - 1].Eol? ==> Flat(pieces) == text)
  }

  ghost predicate Accepts(items: seq<Item>, text: string) {
    exists pieces :: Splits(items, pieces, text)
  }

  /** Some substring matches, or a prefix when the pattern starts with ^. */
  ghost predicate Matches(re: string, text: string) {
    if re != [] && re[0] == '^' then Accepts(Parse(re[1..]), text)
    else exists k :: 0 <= k <= |text| && Accepts(Parse(re), text[k..])
  }

  // ---------- one item at a time ----------

  lemma AcceptsCons(it: Item, rest: seq<Item>, text: string, k: nat)
    requires k <= |text| && Piece(it, text[..k]) && Accepts(rest, text[k..]) && !it.Eol?
    ensures Accepts([it] + rest, text)
  {
    var pieces :| Splits(rest, pieces, text[k..]);
    var all := [text[..k]] + pieces;
    assert all[1..] == pieces;
    assert text == text[..k] + text[k..];
    assert Splits([it] + rest, all, text);
  }

  lemma AcceptsUncons(it: Item, rest: seq<Item>, text: string) returns (k: nat)
    requires Accepts([it] + rest, text) && !it.Eol?
    ensures k <= |text| && Piece(it, text[..k]) && Accepts(rest, text[k..])
  {
    var items := [it] + rest;
    var pieces :| Splits(items, pieces, text);
    k := |pieces[0]|;
    assert pieces[0] == text[..k];
    assert forall i :: 0 <= i < |rest| ==> rest[i] == items[i + 1] && pieces[1..][i] == pieces[i + 1];
    assert Splits(rest, pieces[1..], text[k..]);
  }

  lemma AcceptsNone(text: string)
    ensures Accepts([], text)
  {
    assert Splits([], [], text);
  }

  lemma AcceptsEol(text: string)
    ensures Accepts([Eol], text) <==> text == []
  {
    if text == [] {
      assert Flat([[]]) == [] + Flat([[]][1..]);
      assert Splits([Eol], [[]], text);
    }
    if Accepts([Eol], text) {
      var pieces :| Splits([Eol], pieces, text);
      assert pieces[1..] == [] && Flat(pieces) == pieces[0] + Flat(pieces[1..]);
      assert Piece(Eol, pieces[0]);
    }
  }

  lemma AcceptsOne(it: Item, rest: seq<Item>, text: string)
    requires it.Lit? || it.Dot?
    ensures Accepts([it] + rest, text) <==> text != [] && Piece(it, text[..1]) && Accepts(rest, text[1..])
  {
    if Accepts([it] + rest, text) {
      var k := AcceptsUncons(it, rest, text);
    }
    if text != [] && Piece(it, text[..1]) && Accepts(rest, text[1..]) {
      AcceptsCons(it, rest, text, 1);
    }
  }

  /** A star that cannot take text[i] leaves the rest to match from i or earlier. */
  lemma StarStops(c: char, rest: seq<Item>, text: string, i: nat)
    requires i <= |text| && (i < |text| ==> text[i] != c && c != '.')
    requires forall k :: 0 <= k <= i ==> !Accepts(rest, text[k..])
    ensures !Accepts([Star(c)] + rest, text)
  {
    if Accepts([Star(c)] + rest, text) {
      var k := AcceptsUncons(Star(c), rest, text);
      assert false;
    }
  }

  // ---------- the code ----------

  method Match(re: string, text: string) returns (r: bool)
    ensures r <==> Matches(re, text)
  {
    if re != [] && re[0] == '^' {
      r := MatchHere(re[1..], text);
      return;
    }
    var i := 0;
    while true
      invariant i <= |text| && forall k :: 0 <= k < i ==> !Accepts(Parse(re), text[k..])
      decreases |text| - i
    {
      r := MatchHere(re, text[i..]);
      if r || i == |text| {
        return;
      }
      i := i + 1;
    }
  }

  method MatchHere(re: string, text: string) returns (r: bool)
    ensures r <==> Accepts(Parse(re), text)
    decreases |re|, 0
  {
    if re == [] {
      AcceptsNone(text);
      return true;
    }
    if |re| >= 2 && re[1] == '*' {
      r := MatchStar(re[0], re[2..], text);
      return;
    }
    if re == ['$'] {
      AcceptsEol(text);
      return text == [];
    }
    AcceptsOne(if re[0] == '.' then Dot else Lit(re[0]), Parse(re[1..]), text);
    if text != [] && (re[0] == '.' || re[0] == text[0]) {
      r := MatchHere(re[1..], text[1..]);
      return;
    }
    r := false;
  }

  method MatchStar(c: char, re: string, text: string) returns (r: bool)
    ensures r <==> Accepts([Star(c)] + Parse(re), text)
    decreases |re|, 1
  {
    var i := 0;
    while true
      invariant i <= |text| && Piece(Star(c), text[..i])
      invariant forall k :: 0 <= k < i ==> !Accepts(Parse(re), text[k..])
      decreases |text| - i
    {
      r := MatchHere(re, text[i..]);
      if r {
        AcceptsCons(Star(c), Parse(re), text, i);
        return;
      }
      if i == |text| || !(text[i] == c || c == '.') {
        StarStops(c, Parse(re), text, i);
        return;
      }
      i := i + 1;
    }
  }
}
