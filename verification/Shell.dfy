/** The command parser of Project1/sh.c: a recursive descent over a cursor into the input line, and the pass
    that ends each word by writing a NUL into the line itself. */
module Shell {

  const MAXARGS: nat := 10
  const NUL: char := '\0'
  const O_RDONLY: nat := 0x000
  const O_WRONLY: nat := 0x001
  const O_CREATE: nat := 0x200

  /** A pair of pointers into the line, as (argv[i], eargv[i]) and (file, efile). */
  datatype Span = Span(start: nat, end: nat)

  /** A command tree. Its words are spans of the line while parsing, and strings for a reader. */
  datatype Cmd<W> =
    | Exec(argv: seq<W>)
    | Redir(cmd: Cmd<W>, file: W, mode: nat, fd: nat)
    | Pipe(left: Cmd<W>, right: Cmd<W>)
    | List(left: Cmd<W>, right: Cmd<W>)
    | Back(cmd: Cmd<W>)

  /** What a parser function does: it builds a tree and leaves the cursor at `next`, or panics. */
  datatype Parsed = Ok(cmd: Cmd<Span>, next: nat) | Panic(why: string)

  datatype Token = Token(kind: char, span: Span, next: nat)

  predicate White(c: char) {
    c == ' ' || c == '\t' || c == '\r' || c == '\n' || c == '\U{0B}'
  }

  /** A character that cannot be part of a word. */
  predicate Special(c: char) {
    c == NUL || White(c) || c == '<' || c == '|' || c == '>' || c == '&' || c == ';' || c == '(' || c == ')'
  }

  predicate NoNul(b: string) {
    forall i :: 0 <= i < |b| ==> b[i] != NUL
  }

  /** The character at s; the line is followed by a NUL. */
  function At(b: string, s: nat): char {
    if s < |b| then b[s] else NUL
  }

  // ---------- What the scanner and the parser compute ----------

  function Skip(b: string, s: nat): (r: nat)
    requires s <= |b|
    ensures s <= r <= |b| && !White(At(b, r)) && (!White(At(b, s)) ==> r == s)
    decreases |b| - s
  {
    if s < |b| && White(b[s]) then Skip(b, s + 1) else s
  }

  function WordEnd(b: string, s: nat): (r: nat)
    requires s <= |b|
    ensures s <= r <= |b| && Special(At(b, r)) && forall i :: s <= i < r ==> !Special(b[i])
    decreases |b| - s
  {
    if s < |b| && !Special(b[s]) then WordEnd(b, s + 1) else s
  }

  function TokenAt(b: string, s: nat): (t: Token)
    requires s <= |b| && NoNul(b)
    ensures s <= t.span.start <= t.span.end <= t.next <= |b|
    ensures t.kind != NUL ==> s < t.next
  {
    var q := Skip(b, s);
    var c := At(b, q);
    var (kind, eq) :=
      if c == NUL then (NUL, q)
      else if c == '|' || c == '(' || c == ')' || c == ';' || c == '&' || c == '<' then (c, q + 1)
      else if c == '>' then (if At(b, q + 1) == '>' then ('+', q + 2) else ('>', q + 1))
      else ('a', WordEnd(b, q));
    Token(kind, Span(q, eq), Skip(b, eq))
  }

  predicate Sees(b: string, s: nat, toks: set<char>)
    requires s <= |b|
  {
    At(b, Skip(b, s)) != NUL && At(b, Skip(b, s)) in toks
  }

  /** A peek that finds a character means that the next token is not the end of the line. */
  lemma SeesAdvances(b: string, s: nat, toks: set<char>)
    requires s <= |b| && NoNul(b) && Sees(b, s, toks)
    ensures TokenAt(b, s).kind != NUL
  {
  }

  function Mode(tok: char): nat {
    if tok == '<' then O_RDONLY else O_WRONLY + O_CREATE
  }

  function Fd(tok: char): nat {
    if tok == '<' then 0 else 1
  }

  function RedirsAt(b: string, cmd: Cmd<Span>, s: nat): (r: Parsed)
    requires s <= |b| && NoNul(b)
    ensures r.Ok? ==> s <= r.next <= |b|
    decreases |b| - s
  {
    if Sees(b, s, {'<', '>'}) then
      SeesAdvances(b, s, {'<', '>'});
      var op := TokenAt(b, s);
      var file := TokenAt(b, op.next);
      if file.kind != 'a' then Panic("missing file for redirection")
      else RedirsAt(b, Redir(cmd, file.span, Mode(op.kind), Fd(op.kind)), file.next)
    else
      Ok(cmd, Skip(b, s))
  }

  /** The effect on the tree `ret` of storing one more word through parseexec's pointer to its execcmd,
      which lies under the redirections read so far. */
  function AddWord(ret: Cmd<Span>, word: Span): Cmd<Span> {
    match ret
    case Exec(argv) => Exec(argv + [word])
    case Redir(cmd, file, mode, fd) => Redir(AddWord(cmd, word), file, mode, fd)
    case _ => ret
  }

  function ArgsAt(b: string, argc: nat, ret: Cmd<Span>, s: nat): (r: Parsed)
    requires s <= |b| && NoNul(b)
    ensures r.Ok? ==> s <= r.next <= |b|
    decreases |b| - s
  {
    if Sees(b, s, {'|', ')', '&', ';'}) then Ok(ret, Skip(b, s))
    else
      var word := TokenAt(b, s);
      if word.kind == NUL then Ok(ret, word.next)
      else if word.kind != 'a' then Panic("syntax")
      else if argc + 1 >= MAXARGS then Panic("too many args")
      else
        match RedirsAt(b, AddWord(ret, word.span), word.next)
        case Panic(why) => Panic(why)
        case Ok(ret', next) => ArgsAt(b, argc + 1, ret', next)
  }

  function BlockAt(b: string, s: nat): (r: Parsed)
    requires s <= |b| && NoNul(b)
    ensures r.Ok? ==> s <= r.next <= |b|
    decreases |b| - s, 0
  {
    if !Sees(b, s, {'('}) then Panic("parseblock")
    else
      SeesAdvances(b, s, {'('});
      match LineAt(b, TokenAt(b, s).next)
      case Panic(why) => Panic(why)
      case Ok(cmd, next) =>
        if !Sees(b, next, {')'}) then Panic("syntax - missing )") else RedirsAt(b, cmd, TokenAt(b, next).next)
  }

  function ExecAt(b: string, s: nat): (r: Parsed)
    requires s <= |b| && NoNul(b)
    ensures r.Ok? ==> s <= r.next <= |b|
    decreases |b| - s, 1
  {
    if Sees(b, s, {'('}) then BlockAt(b, s)
    else
      match RedirsAt(b, Exec([]), s)
      case Panic(why) => Panic(why)
      case Ok(ret, next) => ArgsAt(b, 0, ret, next)
  }

  function PipeAt(b: string, s: nat): (r: Parsed)
    requires s <= |b| && NoNul(b)
    ensures r.Ok? ==> s <= r.next <= |b|
    decreases |b| - s, 2
  {
    match ExecAt(b, s)
    case Panic(why) => Panic(why)
    case Ok(cmd, next) =>
      if Sees(b, next, {'|'}) then
        SeesAdvances(b, next, {'|'});
        match PipeAt(b, TokenAt(b, next).next)
        case Panic(why) => Panic(why)
        case Ok(right, next') => Ok(Pipe(cmd, right), next')
      else
        Ok(cmd, Skip(b, next))
  }

  function BacksAt(b: string, cmd: Cmd<Span>, s: nat): (r: (Cmd<Span>, nat))
    requires s <= |b| && NoNul(b)
    ensures s <= r.1 <= |b|
    decreases |b| - s
  {
    if Sees(b, s, {'&'}) then
      SeesAdvances(b, s, {'&'});
      BacksAt(b, Back(cmd), TokenAt(b, s).next)
    else
      (cmd, Skip(b, s))
  }

  function LineAt(b: string, s: nat): (r: Parsed)
    requires s <= |b| && NoNul(b)
    ensures r.Ok? ==> s <= r.next <= |b|
    decreases |b| - s, 3
  {
    match PipeAt(b, s)
    case Panic(why) => Panic(why)
    case Ok(first, next) =>
      var (cmd, at) := BacksAt(b, first, next);
      if Sees(b, at, {';'}) then
        SeesAdvances(b, at, {';'});
        match LineAt(b, TokenAt(b, at).next)
        case Panic(why) => Panic(why)
        case Ok(rest, next') => Ok(List(cmd, rest), next')
      else
        Ok(cmd, Skip(b, at))
  }

  function Parse(b: string): Parsed
    requires NoNul(b)
  {
    match LineAt(b, 0)
    case Panic(why) => Panic(why)
    case Ok(cmd, next) => if Skip(b, next) != |b| then Panic("syntax") else Ok(cmd, |b|)
  }

  // ---------- What a tree says ----------

  function Slice(b: string, w: Span): string {
    if w.start <= w.end <= |b| then b[w.start..w.end] else ""
  }

  /** The tree with its words read off the line. */
  function Text(b: string, c: Cmd<Span>): Cmd<string> {
    match c
    case Exec(argv) => Exec(seq(|argv|, i requires 0 <= i < |argv| => Slice(b, argv[i])))
    case Redir(cmd, file, mode, fd) => Redir(Text(b, cmd), Slice(b, file), mode, fd)
    case Pipe(left, right) => Pipe(Text(b, left), Text(b, right))
    case List(left, right) => List(Text(b, left), Text(b, right))
    case Back(cmd) => Back(Text(b, cmd))
  }

  predicate Word(w: string) {
    w != [] && forall i :: 0 <= i < |w| ==> !Special(w[i])
  }

  /** The trees that some line denotes. */
  predicate Printable(c: Cmd<string>) {
    match c
    case Exec(argv) => |argv| < MAXARGS && forall i :: 0 <= i < |argv| ==> Word(argv[i])
    case Redir(cmd, file, mode, fd) =>
      Printable(cmd) && Word(file) && ((mode == O_RDONLY && fd == 0) || (mode == O_WRONLY + O_CREATE && fd == 1))
    case Pipe(left, right) => Printable(left) && Printable(right)
    case List(left, right) => Printable(left) && Printable(right)
    case Back(cmd) => Printable(cmd)
  }

  function Spaced(argv: seq<string>): string {
    if argv == [] then "" else argv[0] + " " + Spaced(argv[1..])
  }

  /** A fully parenthesised line for a tree. */
  function Print(c: Cmd<string>): string {
    match c
    case Exec(argv) => Spaced(argv)
    case Redir(cmd, file, mode, fd) => "(" + Print(cmd) + ")" + (if mode == O_RDONLY then "<" else ">") + file
    case Pipe(left, right) => "(" + Print(left) + ")" + "|" + "(" + Print(right) + ")"
    case List(left, right) => "(" + Print(left) + ")" + ";" + "(" + Print(right) + ")"
    case Back(cmd) => "(" + Print(cmd) + ")" + "&"
  }

  // ---------- The round trip ----------

  /** The characters of t are found at s. */
  predicate Found(b: string, s: nat, t: string) {
    s + |t| <= |b| && b[s..s + |t|] == t
  }

  lemma FoundSplit(b: string, s: nat, t: string, u: string)
    requires Found(b, s, t + u)
    ensures Found(b, s, t) && Found(b, s + |t|, u)
  {
    assert b[s..s + |t|] == (t + u)[..|t|] && b[s + |t|..s + |t| + |u|] == (t + u)[|t|..];
  }

  lemma Found3(b: string, s: nat, t: string, op: string, u: string)
    requires Found(b, s, t + op + u) && |op| == 1
    ensures Found(b, s, t) && At(b, s + |t|) == op[0] && Found(b, s + |t| + 1, u)
  {
    assert t + op + u == t + (op + u);
    FoundSplit(b, s, t, op + u);
    FoundSplit(b, s + |t|, op, u);
    FoundAt(b, s + |t|, op, 0);
  }

  lemma FoundAt(b: string, s: nat, t: string, i: nat)
    requires Found(b, s, t) && i < |t|
    ensures At(b, s + i) == t[i]
  {
    assert b[s..s + |t|][i] == b[s + i];
  }

  lemma {:induction false} WordEndFound(b: string, s: nat, w: string)
    requires Found(b, s, w) && Special(At(b, s + |w|)) && forall i :: 0 <= i < |w| ==> !Special(w[i])
    ensures WordEnd(b, s) == s + |w|
    decreases |w|
  {
    if w != [] {
      FoundAt(b, s, w, 0);
      assert w == w[..1] + w[1..];
      FoundSplit(b, s, w[..1], w[1..]);
      WordEndFound(b, s + 1, w[1..]);
    }
  }

  /** A word in the line is the next token. */
  lemma WordToken(b: string, s: nat, w: string)
    requires NoNul(b) && Word(w) && Found(b, s, w) && Special(At(b, s + |w|))
    ensures TokenAt(b, s) == Token('a', Span(s, s + |w|), Skip(b, s + |w|))
    ensures Slice(b, Span(s, s + |w|)) == w && !Special(At(b, s))
  {
    FoundAt(b, s, w, 0);
    WordEndFound(b, s, w);
  }

  /** One round of parseexec's loop over its words. */
  lemma ArgsStep(b: string, s: nat, argv: seq<Span>, e: nat)
    requires NoNul(b) && s < e < |b| && TokenAt(b, s) == Token('a', Span(s, e), e + 1) && |argv| + 1 < MAXARGS
    requires !Special(At(b, s)) && !White(At(b, e + 1)) && At(b, e + 1) != '<' && At(b, e + 1) != '>'
    ensures ArgsAt(b, |argv|, Exec(argv), s) == ArgsAt(b, |argv| + 1, Exec(argv + [Span(s, e)]), e + 1)
  {
    assert RedirsAt(b, Exec(argv + [Span(s, e)]), e + 1) == Ok(Exec(argv + [Span(s, e)]), e + 1);
  }

  lemma ArgsEnd(b: string, s: nat, argv: seq<Span>)
    requires NoNul(b) && s <= |b| && At(b, s) in {NUL, ')'}
    ensures ArgsAt(b, |argv|, Exec(argv), s) == Ok(Exec(argv), s)
  {
  }

  /** The first word of an argument list. */
  lemma FirstWord(b: string, s: nat, rest: seq<string>) returns (e: nat)
    requires NoNul(b) && rest != [] && Found(b, s, Spaced(rest)) && forall i :: 0 <= i < |rest| ==> Word(rest[i])
    requires At(b, s + |Spaced(rest)|) in {NUL, ')'}
    ensures s < e < |b| && TokenAt(b, s) == Token('a', Span(s, e), e + 1) && Slice(b, Span(s, e)) == rest[0]
    ensures !Special(At(b, s)) && !White(At(b, e + 1)) && At(b, e + 1) != '<' && At(b, e + 1) != '>'
    ensures Found(b, e + 1, Spaced(rest[1..])) && e + 1 + |Spaced(rest[1..])| == s + |Spaced(rest)|
  {
    hide TokenAt, Skip, WordEnd;
    var w, more := rest[0], Spaced(rest[1..]);
    e := s + |w|;
    Found3(b, s, w, " ", more);
    WordToken(b, s, w);
    AfterSpace(b, e, rest[1..]);
  }

  /** The words of an argument list, read one by one. */
  lemma {:induction false} ArgsFound(b: string, s: nat, done: seq<Span>, rest: seq<string>) returns (words: seq<Span>)
    requires NoNul(b) && Found(b, s, Spaced(rest)) && |done| + |rest| < MAXARGS
    requires forall i :: 0 <= i < |rest| ==> Word(rest[i])
    requires At(b, s + |Spaced(rest)|) in {NUL, ')'}
    ensures ArgsAt(b, |done|, Exec(done), s) == Ok(Exec(done + words), s + |Spaced(rest)|)
    ensures |words| == |rest| && forall i :: 0 <= i < |rest| ==> Slice(b, words[i]) == rest[i]
    decreases |rest|
  {
    hide ArgsAt, TokenAt, Slice, Special, Word;
    if rest == [] {
      words := [];
      assert done + words == done;
      ArgsEnd(b, s, done);
    } else {
      var e := FirstWord(b, s, rest);
      ArgsStep(b, s, done, e);
      var more := done + [Span(s, e)];
      var others := ArgsFound(b, e + 1, more, rest[1..]);
      words := [Span(s, e)] + others;
      assert more + others == done + words;
      assert |more| == |done| + 1;
      forall i | 0 <= i < |rest| ensures Slice(b, words[i]) == rest[i] {
        if i > 0 { assert words[i] == others[i - 1] && rest[i] == rest[1..][i - 1]; }
      }
    }
  }

  /** What follows a word and a space: another word or the end of the list. */
  lemma AfterSpace(b: string, e: nat, rest: seq<string>)
    requires NoNul(b) && e < |b| && b[e] == ' ' && Found(b, e + 1, Spaced(rest))
    requires forall i :: 0 <= i < |rest| ==> Word(rest[i])
    requires At(b, e + 1 + |Spaced(rest)|) in {NUL, ')'}
    ensures Skip(b, e) == e + 1 && At(b, e + 1) !in {'<', '>'}
  {
    if rest != [] {
      assert Spaced(rest)[0] == rest[0][0];
      FoundAt(b, e + 1, Spaced(rest), 0);
    }
  }

  /** A one-character token with no space after it. */
  lemma SymbolToken(b: string, s: nat)
    requires NoNul(b) && s < |b| && b[s] in {'|', '(', ')', ';', '&', '<'} && !White(At(b, s + 1))
    ensures TokenAt(b, s) == Token(b[s], Span(s, s + 1), s + 1)
  {
  }

  lemma BlockStep(b: string, s: nat, inner: Cmd<Span>, e: nat)
    requires NoNul(b) && s + 1 < e <= |b| && b[s] == '(' && !White(b[s + 1])
    requires LineAt(b, s + 1) == Ok(inner, e - 1) && b[e - 1] == ')' && !White(At(b, e))
    ensures ExecAt(b, s) == RedirsAt(b, inner, e)
  {
    hide LineAt, PipeAt, ArgsAt, WordEnd;
    SymbolToken(b, s);
    SymbolToken(b, e - 1);
    assert ExecAt(b, s) == BlockAt(b, s);
  }

  lemma PipeEnd(b: string, s: nat, cmd: Cmd<Span>, e: nat)
    requires NoNul(b) && s <= e <= |b| && ExecAt(b, s) == Ok(cmd, e) && !White(At(b, e)) && At(b, e) != '|'
    ensures PipeAt(b, s) == Ok(cmd, e)
  {
  }

  lemma PipeStep(b: string, s: nat, cmd: Cmd<Span>, e: nat, right: Cmd<Span>, end: nat)
    requires NoNul(b) && s <= e < |b| && ExecAt(b, s) == Ok(cmd, e) && b[e] == '|' && !White(At(b, e + 1))
    requires PipeAt(b, e + 1) == Ok(right, end)
    ensures PipeAt(b, s) == Ok(Pipe(cmd, right), end)
  {
    SymbolToken(b, e);
  }

  lemma LineEnd(b: string, s: nat, cmd: Cmd<Span>, e: nat)
    requires NoNul(b) && s <= e <= |b| && PipeAt(b, s) == Ok(cmd, e) && At(b, e) in {NUL, ')'}
    ensures LineAt(b, s) == Ok(cmd, e)
  {
  }

  lemma LineBack(b: string, s: nat, cmd: Cmd<Span>, e: nat)
    requires NoNul(b) && s <= e < |b| && PipeAt(b, s) == Ok(cmd, e) && b[e] == '&' && At(b, e + 1) in {NUL, ')'}
    ensures LineAt(b, s) == Ok(Back(cmd), e + 1)
  {
    SymbolToken(b, e);
    assert BacksAt(b, Back(cmd), e + 1) == (Back(cmd), e + 1);
    assert BacksAt(b, cmd, e) == (Back(cmd), e + 1);
  }

  lemma LineList(b: string, s: nat, cmd: Cmd<Span>, e: nat, rest: Cmd<Span>, end: nat)
    requires NoNul(b) && s <= e < |b| && PipeAt(b, s) == Ok(cmd, e) && b[e] == ';' && !White(At(b, e + 1))
    requires LineAt(b, e + 1) == Ok(rest, end)
    ensures LineAt(b, s) == Ok(List(cmd, rest), end)
  {
    SymbolToken(b, e);
    assert BacksAt(b, cmd, e) == (cmd, e);
  }

  /** A printed tree does not begin with white space. */
  lemma StartsPlain(b: string, s: nat, c: Cmd<string>)
    requires Printable(c) && Found(b, s, Print(c)) && At(b, s + |Print(c)|) in {NUL, ')'}
    ensures !White(At(b, s)) && At(b, s) !in {'<', '>', '|', '&', ';'}
    ensures c.Exec? ==> At(b, s) != '('
  {
    if Print(c) != [] {
      FoundAt(b, s, Print(c), 0);
      if c.Exec? { assert Print(c)[0] == c.argv[0][0]; }
    }
  }

  /** A parenthesised tree with no space after it. */
  lemma {:induction false} BlockFound(b: string, s: nat, c: Cmd<string>) returns (inner: Cmd<Span>)
    requires NoNul(b) && Printable(c) && Found(b, s, "(" + Print(c) + ")") && !White(At(b, s + |Print(c)| + 2))
    ensures At(b, s) == '(' && Text(b, inner) == c && ExecAt(b, s) == RedirsAt(b, inner, s + |Print(c)| + 2)
    decreases c, 2
  {
    hide LineAt, PipeAt, ExecAt, BlockAt, RedirsAt, ArgsAt;
    var e := s + |Print(c)| + 2;
    assert "(" + Print(c) + ")" == "(" + (Print(c) + ")");
    FoundSplit(b, s, "(", Print(c) + ")");
    FoundAt(b, s, "(", 0);
    FoundSplit(b, s + 1, Print(c), ")");
    FoundAt(b, e - 1, ")", 0);
    inner := LineFound(b, s + 1, c);
    StartsPlain(b, s + 1, c);
    BlockStep(b, s, inner, e);
  }

  /** A parenthesised tree that no redirection follows. */
  lemma {:induction false} BlockAlone(b: string, s: nat, c: Cmd<string>) returns (inner: Cmd<Span>)
    requires NoNul(b) && Printable(c) && Found(b, s, "(" + Print(c) + ")")
    requires At(b, s + |Print(c)| + 2) in {NUL, ')', ';', '&', '|'}
    ensures At(b, s) == '(' && Text(b, inner) == c && ExecAt(b, s) == Ok(inner, s + |Print(c)| + 2)
    decreases c, 3
  {
    inner := BlockFound(b, s, c);
  }

  /** The parser recovers any printable tree from its printing, in place. */
  lemma {:induction false} LineFound(b: string, s: nat, c: Cmd<string>) returns (r: Cmd<Span>)
    requires NoNul(b) && Printable(c) && Found(b, s, Print(c)) && At(b, s + |Print(c)|) in {NUL, ')'}
    ensures Text(b, r) == c && LineAt(b, s) == Ok(r, s + |Print(c)|)
    decreases c, 1
  {
    hide LineAt, PipeAt, ExecAt, BlockAt, RedirsAt, ArgsAt;
    match c
    case Exec(argv) =>
      r := ExecFound(b, s, argv);
    case Redir(cmd, file, mode, fd) =>
      r := RedirFound(b, s, c);
    case Pipe(left, right) =>
      r := PipeFound(b, s, c);
    case List(left, right) =>
      r := ListFound(b, s, c);
    case Back(cmd) =>
      var e := s + |Print(cmd)| + 2;
      FoundSplit(b, s, "(" + Print(cmd) + ")", "&");
      FoundAt(b, e, "&", 0);
      var inner := BlockAlone(b, s, cmd);
      PipeEnd(b, s, inner, e);
      LineBack(b, s, inner, e);
      r := Back(inner);
  }

  lemma ExecStep(b: string, s: nat)
    requires NoNul(b) && s <= |b| && !White(At(b, s)) && At(b, s) !in {'<', '>', '('}
    ensures ExecAt(b, s) == ArgsAt(b, 0, Exec([]), s)
  {
    hide LineAt, PipeAt, BlockAt, ArgsAt;
    assert RedirsAt(b, Exec([]), s) == Ok(Exec([]), s);
  }

  lemma ExecFound(b: string, s: nat, argv: seq<string>) returns (r: Cmd<Span>)
    requires NoNul(b) && Printable(Exec(argv)) && Found(b, s, Spaced(argv)) && At(b, s + |Spaced(argv)|) in {NUL, ')'}
    ensures Text(b, r) == Exec(argv) && LineAt(b, s) == Ok(r, s + |Spaced(argv)|)
  {
    hide LineAt, PipeAt, ExecAt, BlockAt, RedirsAt, ArgsAt, Skip;
    StartsPlain(b, s, Exec(argv));
    var words := ArgsFound(b, s, [], argv);
    assert [] + words == words;
    r := Exec(words);
    assert Text(b, r).argv == argv;
    ExecStep(b, s);
    PipeEnd(b, s, r, s + |Spaced(argv)|);
    LineEnd(b, s, r, s + |Spaced(argv)|);
  }

  lemma RedirsOne(b: string, cmd: Cmd<Span>, p: nat, e: nat)
    requires NoNul(b) && p + 1 < e <= |b| && b[p] in {'<', '>'} && At(b, e) in {NUL, ')'} && !Special(b[p + 1])
    requires TokenAt(b, p + 1) == Token('a', Span(p + 1, e), e)
    ensures RedirsAt(b, cmd, p) == Ok(Redir(cmd, Span(p + 1, e), Mode(b[p]), Fd(b[p])), e)
  {
    assert TokenAt(b, p) == Token(b[p], Span(p, p + 1), p + 1);
    var outer := Redir(cmd, Span(p + 1, e), Mode(b[p]), Fd(b[p]));
    assert RedirsAt(b, outer, e) == Ok(outer, e);
  }

  lemma {:induction false} RedirFound(b: string, s: nat, c: Cmd<string>) returns (r: Cmd<Span>)
    requires c.Redir? && NoNul(b) && Printable(c) && Found(b, s, Print(c)) && At(b, s + |Print(c)|) in {NUL, ')'}
    ensures Text(b, r) == c && LineAt(b, s) == Ok(r, s + |Print(c)|)
    decreases c, 0
  {
    hide LineAt, PipeAt, ExecAt, BlockAt, RedirsAt, ArgsAt, TokenAt, Skip, WordEnd;
    var block, op := "(" + Print(c.cmd) + ")", if c.mode == O_RDONLY then "<" else ">";
    var p, e := s + |block|, s + |Print(c)|;
    assert Print(c) == block + op + c.file;
    Found3(b, s, block, op, c.file);
    WordToken(b, p + 1, c.file);
    var inner := BlockFound(b, s, c.cmd);
    RedirsOne(b, inner, p, e);
    r := Redir(inner, Span(p + 1, e), c.mode, c.fd);
    PipeEnd(b, s, r, e);
    LineEnd(b, s, r, e);
  }

  lemma {:induction false} PipeFound(b: string, s: nat, c: Cmd<string>) returns (r: Cmd<Span>)
    requires c.Pipe? && NoNul(b) && Printable(c) && Found(b, s, Print(c)) && At(b, s + |Print(c)|) in {NUL, ')'}
    ensures Text(b, r) == c && LineAt(b, s) == Ok(r, s + |Print(c)|)
    decreases c, 0
  {
    hide LineAt, PipeAt, ExecAt, BlockAt, RedirsAt, ArgsAt;
    var p := BothFound(b, s, c.left, "|", c.right);
    var e := s + |Print(c)|;
    var left := BlockAlone(b, s, c.left);
    var right := BlockAlone(b, p + 1, c.right);
    r := Pipe(left, right);
    PipeEnd(b, p + 1, right, e);
    PipeStep(b, s, left, p, right, e);
    LineEnd(b, s, r, e);
  }

  lemma {:induction false} ListFound(b: string, s: nat, c: Cmd<string>) returns (r: Cmd<Span>)
    requires c.List? && NoNul(b) && Printable(c) && Found(b, s, Print(c)) && At(b, s + |Print(c)|) in {NUL, ')'}
    ensures Text(b, r) == c && LineAt(b, s) == Ok(r, s + |Print(c)|)
    decreases c, 0
  {
    hide LineAt, PipeAt, ExecAt, BlockAt, RedirsAt, ArgsAt;
    var p := BothFound(b, s, c.left, ";", c.right);
    var e := s + |Print(c)|;
    var left := BlockAlone(b, s, c.left);
    var right := BlockAlone(b, p + 1, c.right);
    r := List(left, right);
    PipeEnd(b, p + 1, right, e);
    LineEnd(b, p + 1, right, e);
    PipeEnd(b, s, left, p);
    LineList(b, s, left, p, right, e);
  }

  /** Two parenthesised trees and the operator between them. */
  lemma BothFound(b: string, s: nat, left: Cmd<string>, op: string, right: Cmd<string>) returns (p: nat)
    requires |op| == 1 && Found(b, s, "(" + Print(left) + ")" + op + "(" + Print(right) + ")")
    ensures p == s + |Print(left)| + 2 && At(b, p) == op[0]
    ensures Found(b, s, "(" + Print(left) + ")") && Found(b, p + 1, "(" + Print(right) + ")")
  {
    var l, r := "(" + Print(left) + ")", "(" + Print(right) + ")";
    p := s + |l|;
    assert "(" + Print(left) + ")" + op + "(" + Print(right) + ")" == l + op + r;
    Found3(b, s, l, op, r);
  }

  /** Every printable tree is what the parser reads from its printing. */
  lemma RoundTrip(c: Cmd<string>)
    requires Printable(c)
    ensures NoNul(Print(c))
    ensures Parse(Print(c)).Ok? && Text(Print(c), Parse(Print(c)).cmd) == c
  {
    hide LineAt, PipeAt, ExecAt, BlockAt, RedirsAt, ArgsAt;
    var b := Print(c);
    PrintNoNul(c);
    assert b[0..0 + |b|] == b;
    var r := LineFound(b, 0, c);
  }

  lemma {:induction false} PrintNoNul(c: Cmd<string>)
    requires Printable(c)
    ensures NoNul(Print(c))
  {
    match c
    case Exec(argv) => SpacedNoNul(argv);
    case Redir(cmd, file, mode, fd) => PrintNoNul(cmd);
    case Pipe(left, right) => PrintNoNul(left); PrintNoNul(right);
    case List(left, right) => PrintNoNul(left); PrintNoNul(right);
    case Back(cmd) => PrintNoNul(cmd);
  }

  lemma {:induction false} SpacedNoNul(argv: seq<string>)
    requires forall i :: 0 <= i < |argv| ==> Word(argv[i])
    ensures NoNul(Spaced(argv))
  {
    if argv != [] { SpacedNoNul(argv[1..]); }
  }

  // ---------- What the parser can return ----------

  /** A span that the scanner returns for a word: it is not empty, and it ends only where a word must. */
  predicate WordSpan(b: string, w: Span) {
    && w.start < w.end <= |b| && Special(At(b, w.end))
    && forall i :: w.start <= i < w.end ==> !Special(b[i])
  }

  predicate Sound(b: string, c: Cmd<Span>) {
    match c
    case Exec(argv) => |argv| < MAXARGS && forall i :: 0 <= i < |argv| ==> WordSpan(b, argv[i])
    case Redir(cmd, file, mode, fd) =>
      Sound(b, cmd) && WordSpan(b, file) && ((mode == O_RDONLY && fd == 0) || (mode == O_WRONLY + O_CREATE && fd == 1))
    case Pipe(left, right) => Sound(b, left) && Sound(b, right)
    case List(left, right) => Sound(b, left) && Sound(b, right)
    case Back(cmd) => Sound(b, cmd)
  }

  /** A tree under construction in parseexec: redirections over an execcmd with argc words. */
  predicate Building(c: Cmd<Span>, argc: nat) {
    match c
    case Exec(argv) => |argv| == argc
    case Redir(cmd, file, mode, fd) => Building(cmd, argc)
    case _ => false
  }

  lemma TokenIsWord(b: string, s: nat)
    requires s <= |b| && NoNul(b) && TokenAt(b, s).kind == 'a'
    ensures WordSpan(b, TokenAt(b, s).span)
  {
    assert WordEnd(b, Skip(b, s)) > Skip(b, s);
  }

  lemma {:induction false} AddWordSound(b: string, ret: Cmd<Span>, argc: nat, w: Span)
    requires Sound(b, ret) && Building(ret, argc) && argc + 1 < MAXARGS && WordSpan(b, w)
    ensures Sound(b, AddWord(ret, w)) && Building(AddWord(ret, w), argc + 1)
  {
    if ret.Redir? { AddWordSound(b, ret.cmd, argc, w); }
  }

  lemma {:induction false} RedirsSound(b: string, cmd: Cmd<Span>, s: nat, argc: nat)
    requires s <= |b| && NoNul(b) && Sound(b, cmd) && RedirsAt(b, cmd, s).Ok?
    ensures Sound(b, RedirsAt(b, cmd, s).cmd)
    ensures Building(cmd, argc) ==> Building(RedirsAt(b, cmd, s).cmd, argc)
    decreases |b| - s
  {
    if Sees(b, s, {'<', '>'}) {
      SeesAdvances(b, s, {'<', '>'});
      var op := TokenAt(b, s);
      var file := TokenAt(b, op.next);
      TokenIsWord(b, op.next);
      RedirsSound(b, Redir(cmd, file.span, Mode(op.kind), Fd(op.kind)), file.next, argc);
    }
  }

  lemma {:induction false} ArgsSound(b: string, argc: nat, ret: Cmd<Span>, s: nat)
    requires s <= |b| && NoNul(b) && Sound(b, ret) && Building(ret, argc) && ArgsAt(b, argc, ret, s).Ok?
    ensures Sound(b, ArgsAt(b, argc, ret, s).cmd)
    decreases |b| - s
  {
    hide RedirsAt, AddWord, TokenAt, Skip, WordSpan;
    var word := TokenAt(b, s);
    if !Sees(b, s, {'|', ')', '&', ';'}) && word.kind != NUL {
      TokenIsWord(b, s);
      AddWordSound(b, ret, argc, word.span);
      var r := RedirsAt(b, AddWord(ret, word.span), word.next);
      RedirsSound(b, AddWord(ret, word.span), word.next, argc + 1);
      ArgsSound(b, argc + 1, r.cmd, r.next);
    }
  }

  lemma {:induction false} BacksSound(b: string, cmd: Cmd<Span>, s: nat)
    requires s <= |b| && NoNul(b) && Sound(b, cmd)
    ensures Sound(b, BacksAt(b, cmd, s).0)
    decreases |b| - s
  {
    if Sees(b, s, {'&'}) {
      SeesAdvances(b, s, {'&'});
      BacksSound(b, Back(cmd), TokenAt(b, s).next);
    }
  }

  lemma {:induction false} ExecSound(b: string, s: nat)
    requires s <= |b| && NoNul(b) && ExecAt(b, s).Ok?
    ensures Sound(b, ExecAt(b, s).cmd)
    decreases |b| - s, 1
  {
    hide RedirsAt, ArgsAt, PipeAt;
    if Sees(b, s, {'('}) {
      SeesAdvances(b, s, {'('});
      var start := TokenAt(b, s).next;
      LineSound(b, start);
      var inner := LineAt(b, start);
      RedirsSound(b, inner.cmd, TokenAt(b, inner.next).next, 0);
    } else {
      RedirsSound(b, Exec([]), s, 0);
      var r := RedirsAt(b, Exec([]), s);
      ArgsSound(b, 0, r.cmd, r.next);
    }
  }

  lemma {:induction false} PipeSound(b: string, s: nat)
    requires s <= |b| && NoNul(b) && PipeAt(b, s).Ok?
    ensures Sound(b, PipeAt(b, s).cmd)
    decreases |b| - s, 2
  {
    hide ExecAt, LineAt, BlockAt;
    ExecSound(b, s);
    var next := ExecAt(b, s).next;
    if Sees(b, next, {'|'}) {
      SeesAdvances(b, next, {'|'});
      PipeSound(b, TokenAt(b, next).next);
    }
  }

  lemma {:induction false} LineSound(b: string, s: nat)
    requires s <= |b| && NoNul(b) && LineAt(b, s).Ok?
    ensures Sound(b, LineAt(b, s).cmd)
    decreases |b| - s, 3
  {
    hide ExecAt, PipeAt, BlockAt, BacksAt;
    PipeSound(b, s);
    var first := PipeAt(b, s);
    BacksSound(b, first.cmd, first.next);
    var at := BacksAt(b, first.cmd, first.next).1;
    if Sees(b, at, {';'}) {
      SeesAdvances(b, at, {';'});
      LineSound(b, TokenAt(b, at).next);
    }
  }

  lemma {:induction false} SoundPrintable(b: string, c: Cmd<Span>)
    requires Sound(b, c)
    ensures Printable(Text(b, c))
  {
    match c
    case Exec(argv) =>
      forall i | 0 <= i < |argv| ensures Word(Slice(b, argv[i])) { assert WordSpan(b, argv[i]); }
    case Redir(cmd, file, mode, fd) => SoundPrintable(b, cmd);
    case Pipe(left, right) => SoundPrintable(b, left); SoundPrintable(b, right);
    case List(left, right) => SoundPrintable(b, left); SoundPrintable(b, right);
    case Back(cmd) => SoundPrintable(b, cmd);
  }

  /** The line b is one for the tree c. */
  predicate Denotes(b: string, c: Cmd<string>) {
    NoNul(b) && Parse(b).Ok? && Text(b, Parse(b).cmd) == c
  }

  /** The printable trees are exactly the ones that the parser can return. */
  lemma ImageOfParser(c: Cmd<string>)
    ensures Printable(c) <==> exists b: string :: Denotes(b, c)
  {
    if Printable(c) {
      RoundTrip(c);
      assert Denotes(Print(c), c);
    }
    forall b: string | Denotes(b, c) ensures Printable(c) {
      LineSound(b, 0);
      SoundPrintable(b, LineAt(b, 0).cmd);
    }
  }

  // ---------- The NULs ----------

  /** One of the words of c ends at i. */
  predicate EndsAt(c: Cmd<Span>, i: nat) {
    match c
    case Exec(argv) => exists k :: 0 <= k < |argv| && argv[k].end == i
    case Redir(cmd, file, mode, fd) => file.end == i || EndsAt(cmd, i)
    case Pipe(left, right) => EndsAt(left, i) || EndsAt(right, i)
    case List(left, right) => EndsAt(left, i) || EndsAt(right, i)
    case Back(cmd) => EndsAt(cmd, i)
  }

  /** All words of c end before n. */
  predicate EndsWithin(c: Cmd<Span>, n: nat) {
    match c
    case Exec(argv) => forall k :: 0 <= k < |argv| ==> argv[k].end < n
    case Redir(cmd, file, mode, fd) => file.end < n && EndsWithin(cmd, n)
    case Pipe(left, right) => EndsWithin(left, n) && EndsWithin(right, n)
    case List(left, right) => EndsWithin(left, n) && EndsWithin(right, n)
    case Back(cmd) => EndsWithin(cmd, n)
  }

  lemma {:induction false} SoundWithin(b: string, c: Cmd<Span>, n: nat)
    requires Sound(b, c) && |b| < n
    ensures EndsWithin(c, n)
  {
    match c
    case Exec(argv) => forall k | 0 <= k < |argv| ensures argv[k].end < n { assert WordSpan(b, argv[k]); }
    case Redir(cmd, file, mode, fd) => SoundWithin(b, cmd, n);
    case Pipe(left, right) => SoundWithin(b, left, n); SoundWithin(b, right, n);
    case List(left, right) => SoundWithin(b, left, n); SoundWithin(b, right, n);
    case Back(cmd) => SoundWithin(b, cmd, n);
  }

  /** The C string at i. */
  function CString(mem: seq<char>, i: nat): string
    decreases |mem| - i
  {
    if i < |mem| && mem[i] != NUL then [mem[i]] + CString(mem, i + 1) else ""
  }

  /** The tree with each word read as a C string, as exec and open do. */
  function Strings(mem: seq<char>, c: Cmd<Span>): Cmd<string> {
    match c
    case Exec(argv) => Exec(seq(|argv|, i requires 0 <= i < |argv| => CString(mem, argv[i].start)))
    case Redir(cmd, file, mode, fd) => Redir(Strings(mem, cmd), CString(mem, file.start), mode, fd)
    case Pipe(left, right) => Pipe(Strings(mem, left), Strings(mem, right))
    case List(left, right) => List(Strings(mem, left), Strings(mem, right))
    case Back(cmd) => Back(Strings(mem, cmd))
  }

  /** The memory after nulterminate: NULs where words end, and nothing else changed. */
  predicate Terminated(mem: seq<char>, mem': seq<char>, c: Cmd<Span>) {
    && |mem'| == |mem|
    && forall i :: 0 <= i < |mem| ==> mem'[i] == if EndsAt(c, i) then NUL else mem[i]
  }

  lemma {:induction false} EndsOutsideWords(b: string, c: Cmd<Span>, i: nat)
    requires Sound(b, c) && EndsAt(c, i)
    ensures i <= |b| && Special(At(b, i))
  {
    match c
    case Exec(argv) =>
      var k :| 0 <= k < |argv| && argv[k].end == i;
      assert WordSpan(b, argv[k]);
    case Redir(cmd, file, mode, fd) => if file.end != i { EndsOutsideWords(b, cmd, i); }
    case Pipe(left, right) =>
      if EndsAt(left, i) { EndsOutsideWords(b, left, i); } else { EndsOutsideWords(b, right, i); }
    case List(left, right) =>
      if EndsAt(left, i) { EndsOutsideWords(b, left, i); } else { EndsOutsideWords(b, right, i); }
    case Back(cmd) => EndsOutsideWords(b, cmd, i);
  }

  lemma {:induction false} CStringOf(mem: seq<char>, start: nat, end: nat)
    requires start <= end < |mem| && mem[end] == NUL && forall i :: start <= i < end ==> mem[i] != NUL
    ensures CString(mem, start) == mem[start..end]
    decreases end - start
  {
    if start < end {
      CStringOf(mem, start + 1, end);
      assert mem[start..end] == [mem[start]] + mem[start + 1..end];
    }
  }

  /** A word of `all` reads back as its token: no NUL was written inside it. */
  lemma WordReadsBack(b: string, mem: seq<char>, mem': seq<char>, all: Cmd<Span>, w: Span)
    requires Sound(b, all) && |mem| > |b| && mem[..|b|] == b && Terminated(mem, mem', all)
    requires WordSpan(b, w) && EndsAt(all, w.end)
    ensures CString(mem', w.start) == Slice(b, w)
  {
    forall i | w.start <= i < w.end ensures mem'[i] == b[i] != NUL {
      if EndsAt(all, i) { EndsOutsideWords(b, all, i); assert false; }
    }
    CStringOf(mem', w.start, w.end);
  }

  /** Every word of the tree reads back as its token. */
  lemma {:induction false} ReadsBack(b: string, mem: seq<char>, mem': seq<char>, all: Cmd<Span>, c: Cmd<Span>)
    requires Sound(b, all) && |mem| > |b| && mem[..|b|] == b && Terminated(mem, mem', all)
    requires Sound(b, c) && forall i: nat :: EndsAt(c, i) ==> EndsAt(all, i)
    ensures Strings(mem', c) == Text(b, c)
    decreases c
  {
    match c
    case Exec(argv) =>
      forall k | 0 <= k < |argv| ensures CString(mem', argv[k].start) == Slice(b, argv[k]) {
        assert EndsAt(c, argv[k].end) && WordSpan(b, argv[k]);
        WordReadsBack(b, mem, mem', all, argv[k]);
      }
      assert Strings(mem', c).argv == Text(b, c).argv;
    case Redir(cmd, file, mode, fd) =>
      assert EndsAt(c, file.end);
      WordReadsBack(b, mem, mem', all, file);
      ReadsBack(b, mem, mem', all, cmd);
    case Pipe(left, right) => ReadsBack(b, mem, mem', all, left); ReadsBack(b, mem, mem', all, right);
    case List(left, right) => ReadsBack(b, mem, mem', all, left); ReadsBack(b, mem, mem', all, right);
    case Back(cmd) => ReadsBack(b, mem, mem', all, cmd);
  }

  /** From a printed line in memory, through the parse and the NULs, back to the tree. */
  lemma PrintedReadsBack(c: Cmd<string>, mem: seq<char>, mem': seq<char>)
    requires Printable(c) && |mem| > |Print(c)| && mem[..|Print(c)|] == Print(c)
    requires NoNul(Print(c)) && Parse(Print(c)).Ok? && Terminated(mem, mem', Parse(Print(c)).cmd)
    ensures Strings(mem', Parse(Print(c)).cmd) == c
  {
    hide LineAt, Text, Strings, Sound, EndsAt, Print, Printable;
    var b := Print(c);
    RoundTrip(c);
    LineSound(b, 0);
    var t := Parse(b).cmd;
    ReadsBack(b, mem, mem', t, t);
  }

  // ---------- The parser at work ----------

  class Parser {
    const buf: array<char>
    const es: nat
    var s: nat           // *ps

    ghost predicate Valid()
      reads this, buf
    {
      es < buf.Length && buf[es] == NUL && NoNul(buf[..es]) && s <= es
    }

    /** The line being parsed. */
    ghost function Line(): string
      reads buf
      requires es <= buf.Length
    {
      buf[..es]
    }

    constructor (line: array<char>, ghost len: nat)
      requires len < line.Length && line[len] == NUL
      ensures Valid() && buf == line && s == 0
    {
      var n := 0;
      while line[n] != NUL
        invariant n <= len && NoNul(line[..n])
        decreases len - n
      {
        n := n + 1;
      }
      buf, es, s := line, n, 0;
    }

    method SkipSpace()
      requires Valid()
      modifies this`s
      ensures Valid() && s == Skip(Line(), old(s))
    {
      while s < es && White(buf[s])
        invariant s <= es && Skip(Line(), s) == Skip(Line(), old(s))
      {
        s := s + 1;
      }
    }

    /** peek */
    method Peek(toks: set<char>) returns (r: bool)
      requires Valid()
      modifies this`s
      ensures Valid() && s == Skip(Line(), old(s)) && (r <==> Sees(Line(), old(s), toks))
    {
      SkipSpace();
      r := buf[s] != NUL && buf[s] in toks;
    }

    /** gettoken */
    method Gettoken() returns (ret: char, q: nat, eq: nat)
      requires Valid()
      modifies this`s
      ensures Valid() && Token(ret, Span(q, eq), s) == TokenAt(Line(), old(s))
    {
      SkipSpace();
      q, ret := s, buf[s];
      if ret == NUL {
      } else if ret == '|' || ret == '(' || ret == ')' || ret == ';' || ret == '&' || ret == '<' {
        s := s + 1;
      } else if ret == '>' {
        s := s + 1;
        if buf[s] == '>' {
          ret, s := '+', s + 1;
        }
      } else {
        ret := 'a';
        while s < es && !Special(buf[s])
          invariant s <= es && WordEnd(Line(), s) == WordEnd(Line(), q)
        {
          s := s + 1;
        }
      }
      eq := s;
      SkipSpace();
    }

    /** parseredirs */
    method Parseredirs(cmd: Cmd<Span>) returns (r: Parsed)
      requires Valid()
      modifies this`s
      ensures Valid() && r == RedirsAt(Line(), cmd, old(s)) && (r.Ok? ==> r.next == s)
    {
      hide RedirsAt, Skip, TokenAt, Sees;
      var c := cmd;
      ghost var at := s;
      var more := Peek({'<', '>'});
      while more
        invariant Valid() && at <= es && RedirsAt(Line(), c, at) == RedirsAt(Line(), cmd, old(s))
        invariant s == Skip(Line(), at) && (more <==> Sees(Line(), at, {'<', '>'}))
        decreases es - at
      {
        RedirsRound(Line(), c, at);
        var tok, _, _ := Gettoken();
        var kind, q, eq := Gettoken();
        if kind != 'a' {
          return Panic("missing file for redirection");
        }
        c := Redir(c, Span(q, eq), Mode(tok), Fd(tok));
        at := s;
        more := Peek({'<', '>'});
      }
      RedirsDone(Line(), c, at);
      r := Ok(c, s);
    }

    /** parseblock */
    method Parseblock() returns (r: Parsed)
      requires Valid()
      modifies this`s
      ensures Valid() && r == BlockAt(Line(), old(s)) && (r.Ok? ==> r.next == s)
      decreases es - s, 0
    {
      hide RedirsAt, LineAt, PipeAt, ExecAt, Skip, TokenAt, Sees;
      SkipTwice(Line(), s);
      var open := Peek({'('});
      if !open {
        return Panic("parseblock");
      }
      SeesAdvances(Line(), old(s), {'('});
      var _, _, _ := Gettoken();
      r := Parseline();
      if r.Panic? {
        return;
      }
      var cmd := r.cmd;
      SkipTwice(Line(), s);
      var close := Peek({')'});
      if !close {
        return Panic("syntax - missing )");
      }
      var _, _, _ := Gettoken();
      r := Parseredirs(cmd);
    }

    /** parseexec */
    method Parseexec() returns (r: Parsed)
      requires Valid()
      modifies this`s
      ensures Valid() && r == ExecAt(Line(), old(s)) && (r.Ok? ==> r.next == s)
      decreases es - s, 1
    {
      hide RedirsAt, LineAt, PipeAt, BlockAt, ArgsAt, Skip, TokenAt, Sees;
      FromSkip(Line(), Exec([]), s);
      var block := Peek({'('});
      if block {
        r := Parseblock();
        return;
      }
      r := Parseredirs(Exec([]));
      if r.Ok? {
        r := ParseWords(r.cmd);
      }
    }

    /** parseexec's loop over the words of the command. */
    method ParseWords(first: Cmd<Span>) returns (r: Parsed)
      requires Valid()
      modifies this`s
      ensures Valid() && r == ArgsAt(Line(), 0, first, old(s)) && (r.Ok? ==> r.next == s)
    {
      hide RedirsAt, ArgsAt, Skip, TokenAt, Sees, AddWord;
      var ret, argc := first, 0;
      ghost var at := s;
      var stop := Peek({'|', ')', '&', ';'});
      while !stop
        invariant Valid() && at <= es && ArgsAt(Line(), argc, ret, at) == ArgsAt(Line(), 0, first, old(s))
        invariant s == Skip(Line(), at) && (stop <==> Sees(Line(), at, {'|', ')', '&', ';'}))
        decreases es - at
      {
        ArgsRound(Line(), argc, ret, at);
        SkipTwice(Line(), at);
        var tok, q, eq := Gettoken();
        if tok == NUL {
          return Ok(ret, s);
        }
        if tok != 'a' {
          return Panic("syntax");
        }
        ret, argc := AddWord(ret, Span(q, eq)), argc + 1;
        if argc >= MAXARGS {
          return Panic("too many args");
        }
        r := Parseredirs(ret);
        if r.Panic? {
          return;
        }
        ret, at := r.cmd, s;
        stop := Peek({'|', ')', '&', ';'});
      }
      ArgsDone(Line(), argc, ret, at);
      r := Ok(ret, s);
    }

    /** parsepipe */
    method Parsepipe() returns (r: Parsed)
      requires Valid()
      modifies this`s
      ensures Valid() && r == PipeAt(Line(), old(s)) && (r.Ok? ==> r.next == s)
      decreases es - s, 2
    {
      hide LineAt, BlockAt, ExecAt, Skip, TokenAt, Sees;
      r := Parseexec();
      if r.Panic? {
        return;
      }
      var cmd := r.cmd;
      ghost var at := s;
      SkipTwice(Line(), at);
      var more := Peek({'|'});
      if !more {
        return Ok(cmd, s);
      }
      SeesAdvances(Line(), at, {'|'});
      var _, _, _ := Gettoken();
      r := Parsepipe();
      if r.Ok? {
        r := Ok(Pipe(cmd, r.cmd), s);
      }
    }

    /** parseline's loop over the ampersands. */
    method ParseBacks(first: Cmd<Span>) returns (cmd: Cmd<Span>)
      requires Valid()
      modifies this`s
      ensures Valid() && (cmd, s) == BacksAt(Line(), first, old(s))
    {
      hide BacksAt, Skip, TokenAt, Sees;
      cmd := first;
      ghost var at := s;
      var more := Peek({'&'});
      while more
        invariant Valid() && at <= es && BacksAt(Line(), cmd, at) == BacksAt(Line(), first, old(s))
        invariant s == Skip(Line(), at) && (more <==> Sees(Line(), at, {'&'}))
        decreases es - at
      {
        BacksRound(Line(), cmd, at);
        var _, _, _ := Gettoken();
        cmd, at := Back(cmd), s;
        more := Peek({'&'});
      }
      BacksRound(Line(), cmd, at);
    }

    /** parseline */
    method Parseline() returns (r: Parsed)
      requires Valid()
      modifies this`s
      ensures Valid() && r == LineAt(Line(), old(s)) && (r.Ok? ==> r.next == s)
      decreases es - s, 3
    {
      hide PipeAt, BlockAt, ExecAt, BacksAt, Skip, TokenAt, Sees;
      r := Parsepipe();
      if r.Panic? {
        return;
      }
      var cmd := ParseBacks(r.cmd);
      ghost var at := s;
      SkipTwice(Line(), at);
      var more := Peek({';'});
      if !more {
        return Ok(cmd, s);
      }
      SeesAdvances(Line(), at, {';'});
      var _, _, _ := Gettoken();
      r := Parseline();
      if r.Ok? {
        r := Ok(List(cmd, r.cmd), s);
      }
    }

    /** nulterminate */
    method Nulterminate(c: Cmd<Span>)
      requires EndsWithin(c, buf.Length)
      modifies buf
      ensures Terminated(old(buf[..]), buf[..], c)
      decreases c
    {
      match c
      case Exec(argv) =>
        var i := 0;
        while i < |argv|
          invariant i <= |argv|
          invariant forall j :: 0 <= j < buf.Length ==>
            buf[j] == if exists k :: 0 <= k < i && argv[k].end == j then NUL else old(buf[j])
        {
          assert EndsAt(c, argv[i].end);
          buf[argv[i].end] := NUL;
          i := i + 1;
        }
      case Redir(cmd, file, mode, fd) =>
        Nulterminate(cmd);
        assert EndsAt(c, file.end);
        buf[file.end] := NUL;
      case Pipe(left, right) =>
        Nulterminate(left);
        Nulterminate(right);
      case List(left, right) =>
        Nulterminate(left);
        Nulterminate(right);
      case Back(cmd) =>
        Nulterminate(cmd);
    }

    /** parsecmd */
    method Parsecmd() returns (r: Parsed)
      requires Valid() && s == 0
      modifies this`s, buf
      ensures r == Parse(old(Line()))
      ensures r.Ok? ==> Terminated(old(buf[..]), buf[..], r.cmd)
      ensures r.Ok? ==> Strings(buf[..], r.cmd) == Text(old(Line()), r.cmd)
      ensures r.Panic? ==> buf[..] == old(buf[..])
    {
      hide LineAt, Skip, Sees, Text, Strings, Sound, EndsAt, EndsWithin;
      ghost var line, mem := Line(), buf[..];
      r := Parseline();
      if r.Panic? {
        return;
      }
      var cmd := r.cmd;
      SkipSpace();
      if s != es {
        return Panic("syntax");
      }
      LineSound(line, 0);
      SoundWithin(line, cmd, buf.Length);
      Nulterminate(cmd);
      ReadsBack(line, mem, buf[..], cmd, cmd);
      r := Ok(cmd, es);
    }
  }

  // ---------- Single rounds of the parser's loops ----------

  lemma SkipTwice(b: string, s: nat)
    requires s <= |b| && NoNul(b)
    ensures Skip(b, Skip(b, s)) == Skip(b, s) && TokenAt(b, Skip(b, s)) == TokenAt(b, s)
  {
  }

  lemma FromSkip(b: string, cmd: Cmd<Span>, s: nat)
    requires s <= |b| && NoNul(b)
    ensures RedirsAt(b, cmd, Skip(b, s)) == RedirsAt(b, cmd, s) && BlockAt(b, Skip(b, s)) == BlockAt(b, s)
  {
    hide LineAt;
    SkipTwice(b, s);
  }

  lemma RedirsRound(b: string, cmd: Cmd<Span>, s: nat)
    requires s <= |b| && NoNul(b) && Sees(b, s, {'<', '>'})
    ensures
      var op := TokenAt(b, s);
      var file := TokenAt(b, op.next);
      && s < op.next <= file.next <= |b| && TokenAt(b, Skip(b, s)) == op
      && RedirsAt(b, cmd, s) == if file.kind != 'a' then Panic("missing file for redirection")
        else RedirsAt(b, Redir(cmd, file.span, Mode(op.kind), Fd(op.kind)), file.next)
  {
    SeesAdvances(b, s, {'<', '>'});
    SkipTwice(b, s);
  }

  lemma RedirsDone(b: string, cmd: Cmd<Span>, s: nat)
    requires s <= |b| && NoNul(b) && !Sees(b, s, {'<', '>'})
    ensures RedirsAt(b, cmd, s) == Ok(cmd, Skip(b, s))
  {
  }

  lemma ArgsRound(b: string, argc: nat, ret: Cmd<Span>, s: nat)
    requires s <= |b| && NoNul(b) && !Sees(b, s, {'|', ')', '&', ';'})
    ensures
      var word := TokenAt(b, s);
      ArgsAt(b, argc, ret, s) ==
        if word.kind == NUL then Ok(ret, word.next)
        else if word.kind != 'a' then Panic("syntax")
        else if argc + 1 >= MAXARGS then Panic("too many args")
        else
          match RedirsAt(b, AddWord(ret, word.span), word.next)
          case Panic(why) => Panic(why)
          case Ok(ret', next) => ArgsAt(b, argc + 1, ret', next)
  {
    hide RedirsAt, TokenAt, AddWord;
  }

  lemma ArgsDone(b: string, argc: nat, ret: Cmd<Span>, s: nat)
    requires s <= |b| && NoNul(b) && Sees(b, s, {'|', ')', '&', ';'})
    ensures ArgsAt(b, argc, ret, s) == Ok(ret, Skip(b, s))
  {
  }

  lemma BacksRound(b: string, cmd: Cmd<Span>, s: nat)
    requires s <= |b| && NoNul(b)
    ensures TokenAt(b, Skip(b, s)) == TokenAt(b, s)
    ensures Sees(b, s, {'&'}) ==>
      s < TokenAt(b, s).next && BacksAt(b, cmd, s) == BacksAt(b, Back(cmd), TokenAt(b, s).next)
    ensures !Sees(b, s, {'&'}) ==> BacksAt(b, cmd, s) == (cmd, Skip(b, s))
  {
    SkipTwice(b, s);
    if Sees(b, s, {'&'}) { SeesAdvances(b, s, {'&'}); }
  }
}
