/** The language of command lines, apart from the parser of Project1/sh.c: how a line is spelled as lexemes, how
    lexemes make up a line, and which command tree the line means. The parser accepts exactly the lines of this
    language, and returns the tree that they mean. */
module ShellGrammar {
  import opened Shell

  // ---------- Lexemes ----------

  datatype Lexeme = Arg(text: string) | In | Out | Append | Bar | Amp | Semi | Open | Close

  function Spelling(l: Lexeme): string {
    match l
    case Arg(text) => text
    case In => "<"
    case Out => ">"
    case Append => ">>"
    case Bar => "|"
    case Amp => "&"
    case Semi => ";"
    case Open => "("
    case Close => ")"
  }

  predicate Blank(b: string, s: nat, k: nat) {
    s <= k <= |b| && forall i :: s <= i < k ==> White(b[i])
  }

  /** Lexeme l is spelled at k: a word is as long as it can be, and ">" is not the first half of ">>". */
  predicate SpelledAt(b: string, k: nat, l: Lexeme) {
    && Found(b, k, Spelling(l))
    && (l.Arg? ==> Word(l.text) && Special(At(b, k + |l.text|)))
    && (l.Out? ==> At(b, k + 1) != '>')
  }

  /** From s on the line consists of these lexemes, with white space before, between and after them. */
  ghost predicate Spells(b: string, s: nat, ls: seq<Lexeme>)
    decreases |ls|
  {
    if ls == [] then Blank(b, s, |b|)
    else exists k: nat {:trigger SpelledAt(b, k, ls[0])} ::
      Blank(b, s, k) && SpelledAt(b, k, ls[0]) && Spells(b, k + |Spelling(ls[0])|, ls[1..])
  }

  // ---------- Lines ----------

  datatype Redirect = Redirect(op: Lexeme, file: string)

  /** A word of a command, with the redirections that follow it. */
  datatype Argument = Argument(word: string, redirs: seq<Redirect>)

  datatype Factor = Plain(redirs: seq<Redirect>, args: seq<Argument>) | Block(line: Line, redirs: seq<Redirect>)

  datatype Pipeline = One(f: Factor) | Piped(f: Factor, rest: Pipeline)

  /** Pipelines, each with some ampersands, and semicolons between them. */
  datatype Line = Last(p: Pipeline, backs: nat) | Then(p: Pipeline, backs: nat, rest: Line)

  predicate RedirsOk(rs: seq<Redirect>) {
    forall i :: 0 <= i < |rs| ==> rs[i].op in {In, Out, Append}
  }

  predicate ArgsOk(args: seq<Argument>) {
    forall i :: 0 <= i < |args| ==> RedirsOk(args[i].redirs)
  }

  predicate FactorOk(f: Factor) {
    match f
    case Plain(redirs, args) => RedirsOk(redirs) && ArgsOk(args) && |args| < 10
    case Block(line, redirs) => LineOk(line) && RedirsOk(redirs)
  }

  predicate PipeOk(p: Pipeline) {
    match p
    case One(f) => FactorOk(f)
    case Piped(f, rest) => FactorOk(f) && PipeOk(rest)
  }

  /** A command has fewer than MAXARGS words. */
  predicate LineOk(l: Line) {
    match l
    case Last(p, _) => PipeOk(p)
    case Then(p, _, rest) => PipeOk(p) && LineOk(rest)
  }

  // ---------- The lexemes of a line ----------

  function RedirLex(rs: seq<Redirect>): seq<Lexeme> {
    if rs == [] then [] else [rs[0].op, Arg(rs[0].file)] + RedirLex(rs[1..])
  }

  function ArgLex(args: seq<Argument>): seq<Lexeme> {
    if args == [] then [] else [Arg(args[0].word)] + (RedirLex(args[0].redirs) + ArgLex(args[1..]))
  }

  function FactorLex(f: Factor): seq<Lexeme> {
    match f
    case Plain(redirs, args) => RedirLex(redirs) + ArgLex(args)
    case Block(line, redirs) => [Open] + (LineLex(line) + ([Close] + RedirLex(redirs)))
  }

  function PipeLex(p: Pipeline): seq<Lexeme> {
    match p
    case One(f) => FactorLex(f)
    case Piped(f, rest) => FactorLex(f) + ([Bar] + PipeLex(rest))
  }

  function Amps(n: nat): seq<Lexeme> {
    if n == 0 then [] else [Amp] + Amps(n - 1)
  }

  function LineLex(l: Line): seq<Lexeme> {
    match l
    case Last(p, backs) => PipeLex(p) + Amps(backs)
    case Then(p, backs, rest) => PipeLex(p) + (Amps(backs) + ([Semi] + LineLex(rest)))
  }

  // ---------- The tree that a line means ----------

  /** Redirections around a command, the last one outermost. An output file is opened for writing and created if
      need be, for ">" and ">>" alike. */
  function Wrap(c: Cmd<string>, rs: seq<Redirect>): Cmd<string> {
    if rs == [] then c
    else
      var r := rs[|rs| - 1];
      var inner := Wrap(c, rs[..|rs| - 1]);
      if r.op == In then Redir(inner, r.file, 0, 0) else Redir(inner, r.file, 0x201, 1)
  }

  function Words(args: seq<Argument>): (r: seq<string>)
    ensures |r| == |args|
  {
    seq(|args|, i requires 0 <= i < |args| => args[i].word)
  }

  function AllRedirs(args: seq<Argument>): seq<Redirect> {
    if args == [] then [] else args[0].redirs + AllRedirs(args[1..])
  }

  /** Wherever its redirections stand, all words of a command are its arguments. */
  function FactorTree(f: Factor): Cmd<string> {
    match f
    case Plain(redirs, args) => Wrap(Exec(Words(args)), redirs + AllRedirs(args))
    case Block(line, redirs) => Wrap(LineTree(line), redirs)
  }

  function PipeTree(p: Pipeline): Cmd<string> {
    match p
    case One(f) => FactorTree(f)
    case Piped(f, rest) => Pipe(FactorTree(f), PipeTree(rest))
  }

  function Backs(c: Cmd<string>, n: nat): Cmd<string>
    decreases n
  {
    if n == 0 then c else Backs(Back(c), n - 1)
  }

  function LineTree(l: Line): Cmd<string> {
    match l
    case Last(p, backs) => Backs(PipeTree(p), backs)
    case Then(p, backs, rest) => List(Backs(PipeTree(p), backs), LineTree(rest))
  }

  /** The line b means the tree c. */
  ghost predicate Means(b: string, c: Cmd<string>) {
    exists l :: LineOk(l) && Spells(b, 0, LineLex(l)) && LineTree(l) == c
  }

  // ---------- The scanner ----------

  function LexemeOf(b: string, t: Token): Lexeme {
    if t.kind == 'a' then Arg(Slice(b, t.span))
    else if t.kind == '<' then In
    else if t.kind == '>' then Out
    else if t.kind == '+' then Append
    else if t.kind == '|' then Bar
    else if t.kind == '&' then Amp
    else if t.kind == ';' then Semi
    else if t.kind == '(' then Open
    else Close
  }

  /** What the scanner finds from s on. */
  function Lex(b: string, s: nat): seq<Lexeme>
    requires s <= |b| && NoNul(b)
    decreases |b| - s
  {
    var t := TokenAt(b, s);
    if t.kind == NUL then [] else [LexemeOf(b, t)] + Lex(b, t.next)
  }

  lemma LexSkip(b: string, s: nat)
    requires s <= |b| && NoNul(b)
    ensures Lex(b, Skip(b, s)) == Lex(b, s)
  {
    SkipTwice(b, s);
  }

  lemma {:induction false} SkipBlank(b: string, s: nat, k: nat)
    requires Blank(b, s, k) && !White(At(b, k))
    ensures Skip(b, s) == k
    decreases k - s
  {
    if s < k { SkipBlank(b, s + 1, k); }
  }

  lemma {:induction false} BlankSkip(b: string, s: nat)
    requires s <= |b|
    ensures Blank(b, s, Skip(b, s))
    decreases |b| - s
  {
    if s < |b| && White(b[s]) { BlankSkip(b, s + 1); }
  }

  lemma SpelledToken(b: string, s: nat, k: nat, l: Lexeme)
    requires NoNul(b) && Blank(b, s, k) && SpelledAt(b, k, l)
    ensures k + |Spelling(l)| <= |b|
    ensures
      var t := TokenAt(b, s);
      t.kind != NUL && LexemeOf(b, t) == l && t.next == Skip(b, k + |Spelling(l)|)
  {
    hide WordEnd, Skip;
    if l.Arg? {
      WordToken(b, k, l.text);
      assert !White(At(b, k));
    } else {
      OperatorAt(b, k, l);
    }
    SkipBlank(b, s, k);
  }

  lemma OperatorAt(b: string, k: nat, l: Lexeme)
    requires SpelledAt(b, k, l) && !l.Arg?
    ensures k + |Spelling(l)| <= |b| && b[k] == Initial(l) && (l.Append? <==> b[k] == At(b, k + 1) == '>')
  {
    FoundAt(b, k, Spelling(l), 0);
    if l.Append? { FoundAt(b, k, Spelling(l), 1); }
  }

  lemma TokenSpelled(b: string, s: nat)
    requires s <= |b| && NoNul(b) && TokenAt(b, s).kind != NUL
    ensures
      var l := LexemeOf(b, TokenAt(b, s));
      && Blank(b, s, Skip(b, s)) && SpelledAt(b, Skip(b, s), l)
      && TokenAt(b, s).next == Skip(b, Skip(b, s) + |Spelling(l)|)
  {
    BlankSkip(b, s);
    var k := Skip(b, s);
    if TokenAt(b, s).kind == 'a' {
      TokenIsWord(b, s);
    }
  }

  /** The scanner finds the lexemes that a line spells, */
  lemma {:induction false} LexSpelled(b: string, s: nat, ls: seq<Lexeme>)
    requires s <= |b| && NoNul(b) && Spells(b, s, ls)
    ensures Lex(b, s) == ls
    decreases |ls|
  {
    hide TokenAt, SpelledAt, LexemeOf, Skip, Spelling, Blank;
    if ls == [] {
      BlankEnd(b, s);
    } else {
      var k: nat :| Blank(b, s, k) && SpelledAt(b, k, ls[0]) && Spells(b, k + |Spelling(ls[0])|, ls[1..]);
      SpelledToken(b, s, k, ls[0]);
      LexSpelled(b, k + |Spelling(ls[0])|, ls[1..]);
      LexSkip(b, k + |Spelling(ls[0])|);
    }
  }

  lemma BlankEnd(b: string, s: nat)
    requires s <= |b| && NoNul(b) && Blank(b, s, |b|)
    ensures TokenAt(b, s).kind == NUL
  {
    SkipBlank(b, s, |b|);
    EndToken(b, s);
  }

  lemma EndToken(b: string, s: nat)
    requires s <= |b| && NoNul(b)
    ensures TokenAt(b, s).kind == NUL <==> Skip(b, s) == |b|
  {
  }

  /** and every line spells what the scanner finds. */
  lemma {:induction false} LexSpells(b: string, s: nat)
    requires s <= |b| && NoNul(b)
    ensures Spells(b, s, Lex(b, s))
    decreases |b| - s
  {
    hide TokenAt, SpelledAt, LexemeOf;
    EndToken(b, s);
    if TokenAt(b, s).kind == NUL {
      BlankSkip(b, s);
    } else {
      TokenSpelled(b, s);
      var l := LexemeOf(b, TokenAt(b, s));
      assert Found(b, Skip(b, s), Spelling(l)) by { SpelledFound(b, Skip(b, s), l); }
      var e := Skip(b, s) + |Spelling(l)|;
      LexSkip(b, e);
      assert e > s by { SpelledFound(b, Skip(b, s), l); }
      LexSpells(b, e);
      assert Lex(b, s)[0] == l && Lex(b, s)[1..] == Lex(b, e);
    }
  }

  lemma SpelledFound(b: string, k: nat, l: Lexeme)
    requires SpelledAt(b, k, l)
    ensures Found(b, k, Spelling(l)) && |Spelling(l)| > 0
  {
  }

  /** What peek sees is the first character of the next lexeme. */
  function Initial(l: Lexeme): char {
    match l
    case Arg(_) => 'a'
    case In => '<'
    case Out => '>'
    case Append => '>'
    case Bar => '|'
    case Amp => '&'
    case Semi => ';'
    case Open => '('
    case Close => ')'
  }

  predicate Starts(ls: seq<Lexeme>, toks: set<char>) {
    ls != [] && !ls[0].Arg? && Initial(ls[0]) in toks
  }

  const OPERATORS: set<char> := {'<', '>', '|', '&', ';', '(', ')'}

  lemma SeesLex(b: string, s: nat, toks: set<char>)
    requires s <= |b| && NoNul(b) && toks <= OPERATORS
    ensures Sees(b, s, toks) <==> Starts(Lex(b, s), toks)
  {
  }

  // ---------- Every line of the language is read ----------

  lemma {:induction false} WrapConcat(c: Cmd<string>, rs: seq<Redirect>, more: seq<Redirect>)
    ensures Wrap(Wrap(c, rs), more) == Wrap(c, rs + more)
  {
    if more == [] {
      assert rs + more == rs;
    } else {
      var front := more[..|more| - 1];
      WrapConcat(c, rs, front);
      assert (rs + more)[..|rs + more| - 1] == rs + front;
    }
  }

  lemma WrapOne(c: Cmd<string>, r: Redirect)
    ensures Wrap(c, [r]) == if r.op == In then Redir(c, r.file, 0, 0) else Redir(c, r.file, 0x201, 1)
  {
    assert [r][..0] == [];
    assert Wrap(c, []) == c;
  }

  /** A redirection read by one round of parseredirs. */
  lemma RedirStep(b: string, cmd: Cmd<Span>, s: nat, r: Redirect, rest: seq<Lexeme>) returns (c: Cmd<Span>, e: nat)
    requires s <= |b| && NoNul(b) && r.op in {In, Out, Append} && Lex(b, s) == [r.op, Arg(r.file)] + rest
    ensures s < e <= |b| && RedirsAt(b, cmd, s) == RedirsAt(b, c, e) && Lex(b, e) == rest
    ensures Text(b, c) == Wrap(Text(b, cmd), [r])
  {
    hide RedirsAt, Skip, WordEnd, Wrap;
    SeesLex(b, s, {'<', '>'});
    RedirsRound(b, cmd, s);
    var op := TokenAt(b, s);
    var file := TokenAt(b, op.next);
    assert LexemeOf(b, op) == Lex(b, s)[0] == r.op;
    assert Lex(b, op.next) == Lex(b, s)[1..] == [Arg(r.file)] + rest;
    assert LexemeOf(b, file) == Lex(b, op.next)[0] == Arg(r.file);
    assert Lex(b, file.next) == Lex(b, op.next)[1..] == rest;
    c, e := Redir(cmd, file.span, Mode(op.kind), Fd(op.kind)), file.next;
    WrapOne(Text(b, cmd), r);
  }

  lemma {:induction false} RedirsRead(b: string, cmd: Cmd<Span>, s: nat, rs: seq<Redirect>, rest: seq<Lexeme>)
    returns (c: Cmd<Span>, e: nat)
    requires s <= |b| && NoNul(b) && RedirsOk(rs) && Lex(b, s) == RedirLex(rs) + rest && !Starts(rest, {'<', '>'})
    ensures s <= e <= |b| && RedirsAt(b, cmd, s) == Ok(c, e) && Lex(b, e) == rest
    ensures Text(b, c) == Wrap(Text(b, cmd), rs)
    decreases |rs|
  {
    hide RedirsAt, Skip, WordEnd, TokenAt, Lex, Sees;
    if rs == [] {
      assert Lex(b, s) == rest;
      SeesLex(b, s, {'<', '>'});
      RedirsDone(b, cmd, s);
      LexSkip(b, s);
      c, e := cmd, Skip(b, s);
    } else {
      var more := RedirLex(rs[1..]) + rest;
      assert Lex(b, s) == [rs[0].op, Arg(rs[0].file)] + more;
      var c1, e1 := RedirStep(b, cmd, s, rs[0], more);
      c, e := RedirsRead(b, c1, e1, rs[1..], rest);
      WrapConcat(Text(b, cmd), [rs[0]], rs[1..]);
      assert [rs[0]] + rs[1..] == rs;
    }
  }

  lemma {:induction false} TextAddWord(b: string, ret: Cmd<Span>, w: Span, ws: seq<string>, rs: seq<Redirect>)
    requires Text(b, ret) == Wrap(Exec(ws), rs)
    ensures Text(b, AddWord(ret, w)) == Wrap(Exec(ws + [Slice(b, w)]), rs)
    decreases ret
  {
    if rs == [] {
      assert Text(b, AddWord(ret, w)).argv == ws + [Slice(b, w)];
    } else {
      TextAddWord(b, ret.cmd, w, ws, rs[..|rs| - 1]);
    }
  }

  /** A round of parseexec's loop over its words. */
  lemma ArgStep(b: string, argc: nat, ret: Cmd<Span>, s: nat, ws: seq<string>, rs: seq<Redirect>, a: Argument,
                rest: seq<Lexeme>)
    returns (c: Cmd<Span>, e: nat)
    requires s <= |b| && NoNul(b) && argc + 1 < MAXARGS && RedirsOk(a.redirs) && !Starts(rest, {'<', '>'})
    requires Lex(b, s) == [Arg(a.word)] + (RedirLex(a.redirs) + rest) && Text(b, ret) == Wrap(Exec(ws), rs)
    ensures s < e <= |b| && Lex(b, e) == rest && ArgsAt(b, argc, ret, s) == ArgsAt(b, argc + 1, c, e)
    ensures Text(b, c) == Wrap(Exec(ws + [a.word]), rs + a.redirs)
  {
    hide RedirsAt, ArgsAt, Skip, WordEnd, Wrap, AddWord, Text;
    SeesLex(b, s, {'|', ')', '&', ';'});
    ArgsRound(b, argc, ret, s);
    var word := TokenAt(b, s);
    assert LexemeOf(b, word) == Lex(b, s)[0] == Arg(a.word);
    assert Lex(b, word.next) == Lex(b, s)[1..] == RedirLex(a.redirs) + rest;
    TextAddWord(b, ret, word.span, ws, rs);
    c, e := RedirsRead(b, AddWord(ret, word.span), word.next, a.redirs, rest);
    WrapConcat(Exec(ws + [a.word]), rs, a.redirs);
  }

  /** What may come after the words of a command. */
  predicate EndsCommand(rest: seq<Lexeme>) {
    rest == [] || Starts(rest, {'|', ')', '&', ';'})
  }

  lemma {:induction false} ArgsRead(b: string, argc: nat, ret: Cmd<Span>, s: nat, ws: seq<string>, rs: seq<Redirect>,
                                    args: seq<Argument>, rest: seq<Lexeme>)
    returns (c: Cmd<Span>, e: nat)
    requires s <= |b| && NoNul(b) && argc + |args| < MAXARGS && ArgsOk(args) && EndsCommand(rest)
    requires Lex(b, s) == ArgLex(args) + rest && Text(b, ret) == Wrap(Exec(ws), rs)
    ensures s <= e <= |b| && Lex(b, e) == rest && ArgsAt(b, argc, ret, s) == Ok(c, e)
    ensures Text(b, c) == Wrap(Exec(ws + Words(args)), rs + AllRedirs(args))
    decreases |args|
  {
    hide RedirsAt, ArgsAt, Skip, WordEnd, TokenAt, Lex, Sees, Wrap, Text, RedirLex;
    if args == [] {
      assert Lex(b, s) == rest && ws + Words(args) == ws && rs + AllRedirs(args) == rs;
      c, e := ret, Skip(b, s);
      LexSkip(b, s);
      ArgsOver(b, argc, ret, s);
    } else {
      var more := ArgLex(args[1..]) + rest;
      assert Lex(b, s) == [Arg(args[0].word)] + (RedirLex(args[0].redirs) + more);
      assert !Starts(more, {'<', '>'}) by { ArgsStart(args[1..], rest); }
      var c1, e1 := ArgStep(b, argc, ret, s, ws, rs, args[0], more);
      c, e := ArgsRead(b, argc + 1, c1, e1, ws + [args[0].word], rs + args[0].redirs, args[1..], rest);
      assert ws + [args[0].word] + Words(args[1..]) == ws + Words(args);
      assert rs + args[0].redirs + AllRedirs(args[1..]) == rs + AllRedirs(args);
    }
  }

  lemma ArgsStart(args: seq<Argument>, rest: seq<Lexeme>)
    requires EndsCommand(rest)
    ensures !Starts(ArgLex(args) + rest, {'<', '>'})
  {
  }

  lemma ArgsOver(b: string, argc: nat, ret: Cmd<Span>, s: nat)
    requires s <= |b| && NoNul(b) && EndsCommand(Lex(b, s))
    ensures ArgsAt(b, argc, ret, s) == Ok(ret, Skip(b, s))
  {
    hide RedirsAt, WordEnd, ArgsAt;
    SeesLex(b, s, {'|', ')', '&', ';'});
    if Lex(b, s) == [] { ArgsRound(b, argc, ret, s); } else { ArgsDone(b, argc, ret, s); }
  }

  /** The lexeme that peek has seen is consumed. */
  lemma OneLexeme(b: string, s: nat, l: Lexeme, rest: seq<Lexeme>)
    requires s <= |b| && NoNul(b) && Lex(b, s) == [l] + rest && !l.Arg?
    ensures Sees(b, s, {Initial(l)}) && s < TokenAt(b, s).next <= |b| && Lex(b, TokenAt(b, s).next) == rest
  {
    SeesLex(b, s, {Initial(l)});
    assert Lex(b, s)[1..] == rest;
  }

  lemma NotSeen(b: string, s: nat, l: Lexeme)
    requires s <= |b| && NoNul(b) && !l.Arg? && !Starts(Lex(b, s), {Initial(l)})
    ensures !Sees(b, s, {Initial(l)})
  {
    SeesLex(b, s, {Initial(l)});
  }

  lemma {:induction false} BacksRead(b: string, cmd: Cmd<Span>, s: nat, n: nat, rest: seq<Lexeme>)
    returns (c: Cmd<Span>, e: nat)
    requires s <= |b| && NoNul(b) && Lex(b, s) == Amps(n) + rest && !Starts(rest, {'&'})
    ensures s <= e <= |b| && BacksAt(b, cmd, s) == (c, e) && Lex(b, e) == rest && Text(b, c) == Backs(Text(b, cmd), n)
    decreases n
  {
    hide Skip, WordEnd;
    SeesLex(b, s, {'&'});
    BacksRound(b, cmd, s);
    if n == 0 {
      assert Lex(b, s) == rest;
      LexSkip(b, s);
      c, e := cmd, Skip(b, s);
    } else {
      assert Lex(b, s) == [Amp] + (Amps(n - 1) + rest);
      OneLexeme(b, s, Amp, Amps(n - 1) + rest);
      c, e := BacksRead(b, Back(cmd), TokenAt(b, s).next, n - 1, rest);
    }
  }

  lemma PlainRead(b: string, s: nat, redirs: seq<Redirect>, args: seq<Argument>, rest: seq<Lexeme>)
    returns (c: Cmd<Span>, e: nat)
    requires s <= |b| && NoNul(b) && FactorOk(Plain(redirs, args)) && EndsCommand(rest)
    requires Lex(b, s) == RedirLex(redirs) + ArgLex(args) + rest
    ensures s <= e <= |b| && ExecAt(b, s) == Ok(c, e) && Lex(b, e) == rest
    ensures Text(b, c) == FactorTree(Plain(redirs, args))
  {
    hide RedirsAt, ArgsAt, BlockAt, Lex, Skip, TokenAt, Sees, Wrap;
    var more := ArgLex(args) + rest;
    assert Lex(b, s) == RedirLex(redirs) + more;
    NotSeen(b, s, Open);
    var c1, e1 := RedirsRead(b, Exec([]), s, redirs, more);
    assert Text(b, Exec([])) == Exec([]);
    c, e := ArgsRead(b, 0, c1, e1, [], redirs, args, rest);
    assert [] + Words(args) == Words(args);
  }

  lemma {:induction false} BlockRead(b: string, s: nat, line: Line, redirs: seq<Redirect>, rest: seq<Lexeme>)
    returns (c: Cmd<Span>, e: nat)
    requires s <= |b| && NoNul(b) && FactorOk(Block(line, redirs)) && EndsCommand(rest)
    requires Lex(b, s) == FactorLex(Block(line, redirs)) + rest
    ensures s <= e <= |b| && ExecAt(b, s) == Ok(c, e) && Lex(b, e) == rest
    ensures Text(b, c) == FactorTree(Block(line, redirs))
    decreases Block(line, redirs), 1
  {
    hide RedirsAt, ArgsAt, LineAt, Lex, Skip, TokenAt, Sees, Wrap;
    var tail := [Close] + (RedirLex(redirs) + rest);
    assert Lex(b, s) == [Open] + (LineLex(line) + tail);
    OneLexeme(b, s, Open, LineLex(line) + tail);
    var c1, e1 := LineRead(b, TokenAt(b, s).next, line, tail);
    OneLexeme(b, e1, Close, RedirLex(redirs) + rest);
    c, e := RedirsRead(b, c1, TokenAt(b, e1).next, redirs, rest);
  }

  lemma {:induction false} ExecRead(b: string, s: nat, f: Factor, rest: seq<Lexeme>) returns (c: Cmd<Span>, e: nat)
    requires s <= |b| && NoNul(b) && FactorOk(f) && EndsCommand(rest) && Lex(b, s) == FactorLex(f) + rest
    ensures s <= e <= |b| && ExecAt(b, s) == Ok(c, e) && Lex(b, e) == rest && Text(b, c) == FactorTree(f)
    decreases f, 2
  {
    hide ExecAt, Lex, FactorTree, Text;
    match f
    case Plain(redirs, args) => c, e := PlainRead(b, s, redirs, args, rest);
    case Block(line, redirs) => c, e := BlockRead(b, s, line, redirs, rest);
  }

  lemma {:induction false} PipeRead(b: string, s: nat, p: Pipeline, rest: seq<Lexeme>) returns (c: Cmd<Span>, e: nat)
    requires s <= |b| && NoNul(b) && PipeOk(p) && EndsCommand(rest) && !Starts(rest, {'|'})
    requires Lex(b, s) == PipeLex(p) + rest
    ensures s <= e <= |b| && PipeAt(b, s) == Ok(c, e) && Lex(b, e) == rest && Text(b, c) == PipeTree(p)
    decreases p, 3
  {
    hide ExecAt, Lex, Skip, TokenAt, Sees, FactorTree;
    match p
    case One(f) =>
      var c1, e1 := ExecRead(b, s, f, rest);
      NotSeen(b, e1, Bar);
      LexSkip(b, e1);
      c, e := c1, Skip(b, e1);
    case Piped(f, q) =>
      var tail := [Bar] + (PipeLex(q) + rest);
      assert Lex(b, s) == FactorLex(f) + tail;
      var c1, e1 := ExecRead(b, s, f, tail);
      OneLexeme(b, e1, Bar, PipeLex(q) + rest);
      var c2, e2 := PipeRead(b, TokenAt(b, e1).next, q, rest);
      c, e := Pipe(c1, c2), e2;
  }

  /** A pipeline and its ampersands. */
  lemma {:induction false} BackedRead(b: string, s: nat, p: Pipeline, n: nat, rest: seq<Lexeme>)
    returns (first: Cmd<Span>, next: nat, c: Cmd<Span>, e: nat)
    requires s <= |b| && NoNul(b) && PipeOk(p) && Lex(b, s) == PipeLex(p) + (Amps(n) + rest)
    requires rest == [] || Starts(rest, {')', ';'})
    ensures s <= next <= e <= |b| && PipeAt(b, s) == Ok(first, next) && BacksAt(b, first, next) == (c, e)
    ensures Lex(b, e) == rest && Text(b, c) == Backs(PipeTree(p), n)
    decreases p, 4
  {
    hide PipeAt, BacksAt, Lex, PipeTree, Text;
    first, next := PipeRead(b, s, p, Amps(n) + rest);
    c, e := BacksRead(b, first, next, n, rest);
  }

  lemma {:induction false} LineRead(b: string, s: nat, l: Line, rest: seq<Lexeme>) returns (c: Cmd<Span>, e: nat)
    requires s <= |b| && NoNul(b) && LineOk(l) && (rest == [] || Starts(rest, {')'})) && Lex(b, s) == LineLex(l) + rest
    ensures s <= e <= |b| && LineAt(b, s) == Ok(c, e) && Lex(b, e) == rest && Text(b, c) == LineTree(l)
    decreases l, 5
  {
    hide PipeAt, BacksAt, Lex, Skip, TokenAt, Sees, PipeTree;
    match l
    case Last(p, n) =>
      assert Lex(b, s) == PipeLex(p) + (Amps(n) + rest);
      var first, next, c1, e1 := BackedRead(b, s, p, n, rest);
      NotSeen(b, e1, Semi);
      LexSkip(b, e1);
      c, e := c1, Skip(b, e1);
    case Then(p, n, more) =>
      var tail := [Semi] + (LineLex(more) + rest);
      assert Lex(b, s) == PipeLex(p) + (Amps(n) + tail);
      var first, next, c1, e1 := BackedRead(b, s, p, n, tail);
      OneLexeme(b, e1, Semi, LineLex(more) + rest);
      var c2, e2 := LineRead(b, TokenAt(b, e1).next, more, rest);
      c, e := List(c1, c2), e2;
  }

  // ---------- Everything the parser reads is in the language ----------

  /** A token that peek has seen is an operator, and a lexeme on its own. */
  lemma SeenLexeme(b: string, s: nat, l: Lexeme)
    requires s <= |b| && NoNul(b) && l in {Bar, Amp, Semi, Open, Close} && Sees(b, s, {Initial(l)})
    ensures s < TokenAt(b, s).next <= |b| && Lex(b, s) == [l] + Lex(b, TokenAt(b, s).next)
  {
    SeesLex(b, s, {Initial(l)});
  }

  /** A redirection read by one round of parseredirs. */
  lemma RedirDerived(b: string, cmd: Cmd<Span>, s: nat) returns (r: Redirect, c: Cmd<Span>, e: nat)
    requires s <= |b| && NoNul(b) && RedirsAt(b, cmd, s).Ok? && Sees(b, s, {'<', '>'})
    ensures r.op in {In, Out, Append} && s < e <= |b| && Lex(b, s) == [r.op, Arg(r.file)] + Lex(b, e)
    ensures RedirsAt(b, cmd, s) == RedirsAt(b, c, e) && Text(b, c) == Wrap(Text(b, cmd), [r])
  {
    hide RedirsAt, Skip, WordEnd, Wrap;
    RedirsRound(b, cmd, s);
    var op := TokenAt(b, s);
    var file := TokenAt(b, op.next);
    r := Redirect(LexemeOf(b, op), Slice(b, file.span));
    SeesLex(b, s, {'<', '>'});
    assert Lex(b, s) == [r.op] + Lex(b, op.next) && Lex(b, op.next) == [Arg(r.file)] + Lex(b, file.next);
    c, e := Redir(cmd, file.span, Mode(op.kind), Fd(op.kind)), file.next;
    WrapOne(Text(b, cmd), r);
  }

  lemma {:induction false} RedirsDerived(b: string, cmd: Cmd<Span>, s: nat) returns (rs: seq<Redirect>)
    requires s <= |b| && NoNul(b) && RedirsAt(b, cmd, s).Ok?
    ensures RedirsOk(rs) && Lex(b, s) == RedirLex(rs) + Lex(b, RedirsAt(b, cmd, s).next)
    ensures Text(b, RedirsAt(b, cmd, s).cmd) == Wrap(Text(b, cmd), rs)
    decreases |b| - s
  {
    hide RedirsAt, Skip, TokenAt, Lex, Sees, Wrap, Text;
    if Sees(b, s, {'<', '>'}) {
      var r, c, e := RedirDerived(b, cmd, s);
      var more := RedirsDerived(b, c, e);
      rs := [r] + more;
      WrapConcat(Text(b, cmd), [r], more);
    } else {
      RedirsDone(b, cmd, s);
      LexSkip(b, s);
      rs := [];
      assert Wrap(Text(b, cmd), []) == Text(b, cmd) by { WrapNone(Text(b, cmd)); }
    }
  }

  lemma WrapNone(c: Cmd<string>)
    ensures Wrap(c, []) == c
  {
  }

  lemma {:induction false} ArgsDerived(b: string, argc: nat, ret: Cmd<Span>, s: nat, ws: seq<string>,
                                       rs: seq<Redirect>) returns (args: seq<Argument>)
    requires s <= |b| && NoNul(b) && ArgsAt(b, argc, ret, s).Ok? && argc < MAXARGS
    requires Text(b, ret) == Wrap(Exec(ws), rs)
    ensures ArgsOk(args) && argc + |args| < MAXARGS
    ensures Lex(b, s) == ArgLex(args) + Lex(b, ArgsAt(b, argc, ret, s).next)
    ensures Text(b, ArgsAt(b, argc, ret, s).cmd) == Wrap(Exec(ws + Words(args)), rs + AllRedirs(args))
    decreases |b| - s
  {
    hide RedirsAt, ArgsAt, Skip, TokenAt, Sees, Lex, Wrap, AddWord, Text;
    if Sees(b, s, {'|', ')', '&', ';'}) || TokenAt(b, s).kind == NUL {
      ArgsStop(b, argc, ret, s);
      args := [];
      assert ws + Words(args) == ws && rs + AllRedirs(args) == rs;
    } else {
      var a, more := ArgDerived(b, argc, ret, s, ws, rs);
      args := [a] + more;
      assert ws + [a.word] + Words(more) == ws + Words(args);
      assert rs + a.redirs + AllRedirs(more) == rs + AllRedirs(args);
    }
  }

  lemma ArgsStop(b: string, argc: nat, ret: Cmd<Span>, s: nat)
    requires s <= |b| && NoNul(b) && (Sees(b, s, {'|', ')', '&', ';'}) || TokenAt(b, s).kind == NUL)
    ensures ArgsAt(b, argc, ret, s) == Ok(ret, Skip(b, s)) && Lex(b, Skip(b, s)) == Lex(b, s)
  {
    hide RedirsAt, ArgsAt, WordEnd;
    LexSkip(b, s);
    if Sees(b, s, {'|', ')', '&', ';'}) {
      ArgsDone(b, argc, ret, s);
    } else {
      ArgsRound(b, argc, ret, s);
      EndNext(b, s);
    }
  }

  lemma EndNext(b: string, s: nat)
    requires s <= |b| && NoNul(b) && TokenAt(b, s).kind == NUL
    ensures TokenAt(b, s).next == Skip(b, s) == |b|
  {
  }

  lemma {:induction false} ArgDerived(b: string, argc: nat, ret: Cmd<Span>, s: nat, ws: seq<string>,
                                      rs: seq<Redirect>) returns (a: Argument, more: seq<Argument>)
    requires s <= |b| && NoNul(b) && ArgsAt(b, argc, ret, s).Ok? && argc < MAXARGS
    requires Text(b, ret) == Wrap(Exec(ws), rs)
    requires !Sees(b, s, {'|', ')', '&', ';'}) && TokenAt(b, s).kind != NUL
    ensures RedirsOk(a.redirs) && ArgsOk(more) && argc + 1 + |more| < MAXARGS
    ensures Lex(b, s) ==
      [Arg(a.word)] + (RedirLex(a.redirs) + (ArgLex(more) + Lex(b, ArgsAt(b, argc, ret, s).next)))
    ensures Text(b, ArgsAt(b, argc, ret, s).cmd) ==
      Wrap(Exec(ws + [a.word] + Words(more)), rs + a.redirs + AllRedirs(more))
    decreases |b| - s, 0
  {
    hide RedirsAt, ArgsAt, Skip, WordEnd, Wrap, AddWord, Text;
    ArgsRound(b, argc, ret, s);
    var word := TokenAt(b, s);
    var w := Slice(b, word.span);
    assert Lex(b, s) == [Arg(w)] + Lex(b, word.next);
    TextAddWord(b, ret, word.span, ws, rs);
    var added := AddWord(ret, word.span);
    var redirs := RedirsDerived(b, added, word.next);
    WrapConcat(Exec(ws + [w]), rs, redirs);
    a := Argument(w, redirs);
    var r := RedirsAt(b, added, word.next);
    more := ArgsDerived(b, argc + 1, r.cmd, r.next, ws + [w], rs + redirs);
  }

  lemma {:induction false} BacksDerived(b: string, cmd: Cmd<Span>, s: nat) returns (n: nat)
    requires s <= |b| && NoNul(b)
    ensures Lex(b, s) == Amps(n) + Lex(b, BacksAt(b, cmd, s).1)
    ensures Text(b, BacksAt(b, cmd, s).0) == Backs(Text(b, cmd), n)
    decreases |b| - s
  {
    hide Skip, TokenAt, Sees, Lex;
    BacksRound(b, cmd, s);
    if Sees(b, s, {'&'}) {
      SeenLexeme(b, s, Amp);
      var m := BacksDerived(b, Back(cmd), TokenAt(b, s).next);
      n := m + 1;
    } else {
      LexSkip(b, s);
      n := 0;
    }
  }

  lemma {:induction false} ExecDerived(b: string, s: nat) returns (f: Factor)
    requires s <= |b| && NoNul(b) && ExecAt(b, s).Ok?
    ensures FactorOk(f) && Lex(b, s) == FactorLex(f) + Lex(b, ExecAt(b, s).next)
    ensures Text(b, ExecAt(b, s).cmd) == FactorTree(f)
    decreases |b| - s, 1
  {
    hide RedirsAt, ArgsAt, LineAt, Skip, TokenAt, Sees, Lex, Wrap;
    if Sees(b, s, {'('}) {
      SeenLexeme(b, s, Open);
      var start := TokenAt(b, s).next;
      var line := LineDerived(b, start);
      var inner := LineAt(b, start);
      SeenLexeme(b, inner.next, Close);
      var redirs := RedirsDerived(b, inner.cmd, TokenAt(b, inner.next).next);
      f := Block(line, redirs);
    } else {
      var redirs := RedirsDerived(b, Exec([]), s);
      var r := RedirsAt(b, Exec([]), s);
      assert Text(b, Exec([])) == Exec([]);
      var args := ArgsDerived(b, 0, r.cmd, r.next, [], redirs);
      assert [] + Words(args) == Words(args);
      f := Plain(redirs, args);
    }
  }

  lemma {:induction false} PipeDerived(b: string, s: nat) returns (p: Pipeline)
    requires s <= |b| && NoNul(b) && PipeAt(b, s).Ok?
    ensures PipeOk(p) && Lex(b, s) == PipeLex(p) + Lex(b, PipeAt(b, s).next)
    ensures Text(b, PipeAt(b, s).cmd) == PipeTree(p)
    decreases |b| - s, 2
  {
    hide ExecAt, Skip, TokenAt, Sees, Lex, FactorTree, FactorLex;
    var f := ExecDerived(b, s);
    var next := ExecAt(b, s).next;
    if Sees(b, next, {'|'}) {
      SeenLexeme(b, next, Bar);
      var q := PipeDerived(b, TokenAt(b, next).next);
      p := Piped(f, q);
    } else {
      LexSkip(b, next);
      p := One(f);
    }
  }

  lemma {:induction false} LineDerived(b: string, s: nat) returns (l: Line)
    requires s <= |b| && NoNul(b) && LineAt(b, s).Ok?
    ensures LineOk(l) && Lex(b, s) == LineLex(l) + Lex(b, LineAt(b, s).next)
    ensures Text(b, LineAt(b, s).cmd) == LineTree(l)
    decreases |b| - s, 3
  {
    hide PipeAt, BacksAt, Skip, TokenAt, Sees, Lex, PipeTree, PipeLex;
    var p := PipeDerived(b, s);
    var first := PipeAt(b, s);
    var n := BacksDerived(b, first.cmd, first.next);
    var at := BacksAt(b, first.cmd, first.next).1;
    if Sees(b, at, {';'}) {
      SeenLexeme(b, at, Semi);
      var more := LineDerived(b, TokenAt(b, at).next);
      l := Then(p, n, more);
    } else {
      LexSkip(b, at);
      l := Last(p, n);
    }
  }

  // ---------- The parser and the language ----------

  lemma AtEnd(b: string, s: nat)
    requires s <= |b| && NoNul(b)
    ensures Lex(b, s) == [] <==> Skip(b, s) == |b|
  {
    EndToken(b, s);
  }

  /** The parser accepts a line and returns a tree exactly when the line means that tree. */
  lemma ParserIsGrammar(b: string, c: Cmd<string>)
    requires NoNul(b)
    ensures Denotes(b, c) <==> Means(b, c)
  {
    hide LineAt, Lex, Spells, Skip, Text, LineTree, LineLex;
    if Denotes(b, c) {
      var l := LineDerived(b, 0);
      AtEnd(b, LineAt(b, 0).next);
      assert LineLex(l) + [] == LineLex(l);
      LexSpells(b, 0);
    }
    forall l | LineOk(l) && Spells(b, 0, LineLex(l)) && LineTree(l) == c ensures Denotes(b, c) {
      LexSpelled(b, 0, LineLex(l));
      assert LineLex(l) + [] == LineLex(l);
      var r, e := LineRead(b, 0, l, []);
      AtEnd(b, e);
    }
  }

  /** No line means two trees. */
  lemma OneMeaning(b: string, c: Cmd<string>, d: Cmd<string>)
    requires NoNul(b) && Means(b, c) && Means(b, d)
    ensures c == d
  {
    hide Parse, Means, Text;
    ParserIsGrammar(b, c);
    ParserIsGrammar(b, d);
  }
}
