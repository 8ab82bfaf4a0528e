/** The regular expression matcher of Project1/grep.c. C strings are sequences of characters here: the
    terminating NUL is the end of the sequence. */
module Grep {

  // ---------- What a pattern means ----------

  /** One character of a pattern, or one character with a star. */
  datatype Item = Item(c: char, starred: bool)

  /** A pattern: its items, and whether `^` and a final `$` tie it to the ends of the text. */
  datatype Pattern = Pattern(fromStart: bool, items: seq<Item>, toEnd: bool)

  predicate Fits(c: char, x: char) { c == '.' || c == x }

  /** The strings that one item stands for. */
  ghost predicate PieceOk(item: Item, piece: string) {
    && (!item.starred ==> |piece| == 1)
    && forall k :: 0 <= k < |piece| ==> Fits(item.c, piece[k])
  }

  function Joined(pieces: seq<string>): string {
    if pieces == [] then [] else pieces[0] + Joined(pieces[1..])
  }

  lemma JoinedCons(piece: string, pieces: seq<string>)
    ensures Joined([piece] + pieces) == piece + Joined(pieces)
  {
    assert ([piece] + pieces)[1..] == pieces;
  }

  /** A word of the pattern: a string that divides into one piece for each item. */
  ghost predicate IsWord(items: seq<Item>, w: string) {
    exists pieces: seq<string> ::
      |pieces| == |items| && Joined(pieces) == w && forall k :: 0 <= k < |items| ==> PieceOk(items[k], pieces[k])
  }

  /** A word of the pattern starts at position i of the text, and reaches its end if it must. */
  ghost predicate OccursAt(items: seq<Item>, toEnd: bool, text: string, i: nat)
    requires i <= |text|
  {
    exists j :: i <= j <= |text| && IsWord(items, text[i..j]) && (toEnd ==> j == |text|)
  }

  /** Some part of the text is a word of the pattern, at the start or end of the text where it is tied there. */
  ghost predicate Occurs(p: Pattern, text: string) {
    exists i: nat :: i <= |text| && (p.fromStart ==> i == 0) && OccursAt(p.items, p.toEnd, text, i)
  }

  /** How the matcher's syntax divides a pattern after any `^`. */
  function Items(re: string): (seq<Item>, bool) {
    if re == [] then ([], false)
    else if |re| >= 2 && re[1] == '*' then
      var (rest, toEnd) := Items(re[2..]);
      ([Item(re[0], true)] + rest, toEnd)
    else if re == "$" then ([], true)
    else
      var (rest, toEnd) := Items(re[1..]);
      ([Item(re[0], false)] + rest, toEnd)
  }

  function Parse(re: string): Pattern {
    var fromStart := re != [] && re[0] == '^';
    var (items, toEnd) := Items(if fromStart then re[1..] else re);
    Pattern(fromStart, items, toEnd)
  }

  // ---------- One step of matching ----------

  /** A prefix of the text is a word, all of it if the pattern is tied to the end. */
  ghost predicate Prefix(items: seq<Item>, toEnd: bool, text: string) {
    exists j :: 0 <= j <= |text| && IsWord(items, text[..j]) && (toEnd ==> j == |text|)
  }

  lemma IsWordEmpty(w: string)
    ensures IsWord([], w) <==> w == []
  {
    if w == [] {
      var none: seq<string> := [];
      assert Joined(none) == w;
    }
  }

  /** Words of a pattern are a piece for its first item and a word of the rest. */
  lemma IsWordSplit(items: seq<Item>, w: string, k: nat)
    requires items != [] && k <= |w| && PieceOk(items[0], w[..k]) && IsWord(items[1..], w[k..])
    ensures IsWord(items, w)
  {
    hide PieceOk;
    var pieces :| |pieces| == |items[1..]| && Joined(pieces) == w[k..]
      && forall i :: 0 <= i < |items[1..]| ==> PieceOk(items[1..][i], pieces[i]);
    var all := [w[..k]] + pieces;
    JoinedCons(w[..k], pieces);
    assert w[..k] + w[k..] == w;
    forall i | 0 <= i < |items| ensures PieceOk(items[i], all[i]) {
      if i > 0 { assert items[i] == items[1..][i - 1] && all[i] == pieces[i - 1]; }
    }
  }

  lemma IsWordFirst(items: seq<Item>, w: string) returns (k: nat)
    requires items != [] && IsWord(items, w)
    ensures k <= |w| && PieceOk(items[0], w[..k]) && IsWord(items[1..], w[k..])
  {
    var pieces :| |pieces| == |items| && Joined(pieces) == w
      && forall i :: 0 <= i < |items| ==> PieceOk(items[i], pieces[i]);
    k := |pieces[0]|;
    assert w[..k] == pieces[0] && w[k..] == Joined(pieces[1..]);
    forall i | 0 <= i < |items[1..]| ensures PieceOk(items[1..][i], pieces[1..][i]) {
      assert items[1..][i] == items[i + 1] && pieces[1..][i] == pieces[i + 1];
    }
  }

  /** With no items left the text has matched, unless it has to end here and does not. */
  lemma EndIsPrefix(toEnd: bool, text: string)
    ensures Prefix([], toEnd, text) <==> (toEnd ==> text == [])
  {
    forall j | 0 <= j <= |text| ensures IsWord([], text[..j]) <==> text[..j] == [] { IsWordEmpty(text[..j]); }
    assert IsWord([], text[..0]);
  }

  /** An unstarred item takes one character. */
  lemma OneIsPrefix(c: char, rest: seq<Item>, toEnd: bool, text: string)
    ensures Prefix([Item(c, false)] + rest, toEnd, text) <==>
      text != [] && Fits(c, text[0]) && Prefix(rest, toEnd, text[1..])
  {
    if Prefix([Item(c, false)] + rest, toEnd, text) { OneShrinks(c, rest, toEnd, text); }
    if text != [] && Fits(c, text[0]) && Prefix(rest, toEnd, text[1..]) { OneGrows(c, rest, toEnd, text); }
  }

  lemma OneShrinks(c: char, rest: seq<Item>, toEnd: bool, text: string)
    requires Prefix([Item(c, false)] + rest, toEnd, text)
    ensures text != [] && Fits(c, text[0]) && Prefix(rest, toEnd, text[1..])
  {
    var items := [Item(c, false)] + rest;
    assert items[1..] == rest;
    var j :| 0 <= j <= |text| && IsWord(items, text[..j]) && (toEnd ==> j == |text|);
    var k := IsWordFirst(items, text[..j]);
    assert text[..j][..k] == text[..k] && text[..j][k..] == text[1..][..j - 1];
  }

  lemma OneGrows(c: char, rest: seq<Item>, toEnd: bool, text: string)
    requires text != [] && Fits(c, text[0]) && Prefix(rest, toEnd, text[1..])
    ensures Prefix([Item(c, false)] + rest, toEnd, text)
  {
    var items := [Item(c, false)] + rest;
    assert items[1..] == rest;
    var j :| 0 <= j <= |text[1..]| && IsWord(rest, text[1..][..j]) && (toEnd ==> j == |text[1..]|);
    assert text[..j + 1][..1] == [text[0]] && text[..j + 1][1..] == text[1..][..j];
    IsWordSplit(items, text[..j + 1], 1);
  }

  /** A starred item takes nothing, or one character and then more of the same. */
  lemma StarUnfolds(c: char, rest: seq<Item>, toEnd: bool, text: string)
    ensures Prefix([Item(c, true)] + rest, toEnd, text) <==>
      || Prefix(rest, toEnd, text)
      || (text != [] && Fits(c, text[0]) && Prefix([Item(c, true)] + rest, toEnd, text[1..]))
  {
    if Prefix([Item(c, true)] + rest, toEnd, text) { StarShrinks(c, rest, toEnd, text); }
    if Prefix(rest, toEnd, text) { StarStops(c, rest, toEnd, text); }
    if text != [] && Fits(c, text[0]) && Prefix([Item(c, true)] + rest, toEnd, text[1..]) {
      StarGrows(c, rest, toEnd, text);
    }
  }

  lemma ConsSlices(x: char, v: string, k: nat)
    requires k <= |v|
    ensures ([x] + v)[..k + 1] == [x] + v[..k] && ([x] + v)[k + 1..] == v[k..]
  {
  }

  lemma StarTail(item: Item, x: char, piece: string)
    requires item.starred && PieceOk(item, [x] + piece)
    ensures Fits(item.c, x) && PieceOk(item, piece)
  {
    var all := [x] + piece;
    assert all[0] == x;
    forall k | 0 <= k < |piece| ensures Fits(item.c, piece[k]) { assert piece[k] == all[k + 1]; }
  }

  lemma StarShrinks(c: char, rest: seq<Item>, toEnd: bool, text: string)
    requires Prefix([Item(c, true)] + rest, toEnd, text)
    ensures
      || Prefix(rest, toEnd, text)
      || (text != [] && Fits(c, text[0]) && Prefix([Item(c, true)] + rest, toEnd, text[1..]))
  {
    hide IsWord, PieceOk;
    var items := [Item(c, true)] + rest;
    assert items[1..] == rest;
    var j :| 0 <= j <= |text| && IsWord(items, text[..j]) && (toEnd ==> j == |text|);
    var k := IsWordFirst(items, text[..j]);
    if k == 0 {
      assert text[..j][0..] == text[..j];
    } else {
      var w := text[1..][..j - 1];
      ConsSlices(text[0], w, k - 1);
      assert text[..j] == [text[0]] + w;
      StarTail(Item(c, true), text[0], w[..k - 1]);
      IsWordSplit(items, w, k - 1);
    }
  }

  lemma StarStops(c: char, rest: seq<Item>, toEnd: bool, text: string)
    requires Prefix(rest, toEnd, text)
    ensures Prefix([Item(c, true)] + rest, toEnd, text)
  {
    var items := [Item(c, true)] + rest;
    assert items[1..] == rest;
    var j :| 0 <= j <= |text| && IsWord(rest, text[..j]) && (toEnd ==> j == |text|);
    assert text[..j][..0] == [] && text[..j][0..] == text[..j];
    IsWordSplit(items, text[..j], 0);
  }

  lemma StarGrows(c: char, rest: seq<Item>, toEnd: bool, text: string)
    requires text != [] && Fits(c, text[0]) && Prefix([Item(c, true)] + rest, toEnd, text[1..])
    ensures Prefix([Item(c, true)] + rest, toEnd, text)
  {
    var items := [Item(c, true)] + rest;
    var j :| 0 <= j <= |text[1..]| && IsWord(items, text[1..][..j]) && (toEnd ==> j == |text[1..]|);
    var k := IsWordFirst(items, text[1..][..j]);
    var v := text[1..][..j];
    ConsSlices(text[0], v, k);
    assert text[..j + 1] == [text[0]] + v;
    IsWordSplit(items, [text[0]] + v, k + 1);
  }

  lemma HereOccurs(items: seq<Item>, toEnd: bool, text: string, i: nat)
    requires i <= |text|
    ensures Prefix(items, toEnd, text[i..]) <==> OccursAt(items, toEnd, text, i)
  {
    if Prefix(items, toEnd, text[i..]) {
      var j :| 0 <= j <= |text[i..]| && IsWord(items, text[i..][..j]) && (toEnd ==> j == |text[i..]|);
      assert text[i..][..j] == text[i..i + j];
    }
    if OccursAt(items, toEnd, text, i) {
      var j :| i <= j <= |text| && IsWord(items, text[i..j]) && (toEnd ==> j == |text|);
      assert text[i..][..j - i] == text[i..j];
    }
  }

  // ---------- The matcher ----------

  /** matchhere: whether the text starts with a word of the pattern. */
  method MatchHere(re: string, text: string) returns (r: bool)
    ensures r <==> Prefix(Items(re).0, Items(re).1, text)
    decreases |re|, 0, |text|
  {
    hide Prefix;
    if re == [] {
      EndIsPrefix(false, text);
      return true;
    }
    if |re| >= 2 && re[1] == '*' {
      r := MatchStar(re[0], re[2..], text);
      return;
    }
    if re[0] == '$' && |re| == 1 {
      EndIsPrefix(true, text);
      return text == [];
    }
    OneIsPrefix(re[0], Items(re[1..]).0, Items(re[1..]).1, text);
    if text != [] && (re[0] == '.' || re[0] == text[0]) {
      r := MatchHere(re[1..], text[1..]);
      return;
    }
    r := false;
  }

  /** matchstar: whether it does so for c* followed by the pattern. */
  method MatchStar(c: char, re: string, text: string) returns (r: bool)
    ensures r <==> Prefix([Item(c, true)] + Items(re).0, Items(re).1, text)
    decreases |re|, 1, |text|
  {
    hide Prefix, Items;
    ghost var (rest, toEnd) := Items(re);
    var k := 0;
    assert text[0..] == text;
    while true
      invariant 0 <= k <= |text|
      invariant Prefix([Item(c, true)] + rest, toEnd, text) <==> Prefix([Item(c, true)] + rest, toEnd, text[k..])
      decreases |text| - k
    {
      StarUnfolds(c, rest, toEnd, text[k..]);
      var here := MatchHere(re, text[k..]);
      if here {
        return true;
      }
      if k == |text| || !(text[k] == c || c == '.') {
        return false;
      }
      assert text[k..][1..] == text[k + 1..];
      k := k + 1;
    }
  }

  /** match: true exactly when the pattern occurs in the text. */
  method Match(re: string, text: string) returns (r: bool)
    ensures r <==> Occurs(Parse(re), text)
  {
    hide Prefix, OccursAt, Items;
    if re != [] && re[0] == '^' {
      r := MatchHere(re[1..], text);
      HereOccurs(Items(re[1..]).0, Items(re[1..]).1, text, 0);
      assert text[0..] == text;
      return;
    }
    ghost var (items, toEnd) := Items(re);
    var k := 0;
    while true
      invariant 0 <= k <= |text|
      invariant forall i :: 0 <= i < k ==> !OccursAt(items, toEnd, text, i)
      decreases |text| - k
    {
      r := MatchHere(re, text[k..]);
      HereOccurs(items, toEnd, text, k);
      if r || k == |text| {
        return;
      }
      k := k + 1;
    }
  }
}
