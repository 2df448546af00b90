/**
 The grammar that the shell parses, as functions on a command line and a position.

 A line is a string without NUL; reading at its end yields the NUL that the parser tests
 for. A command refers to its words by their first and one-past-last positions.
 */
module ShellGrammar {

  const MAXARGS: nat := 10
  const O_RDONLY: nat := 0
  /** O_WRONLY | O_CREATE */
  const O_OUT: nat := 0x201

  datatype Span = Span(q: nat, eq: nat)
  datatype Redirection = Redirection(file: Span, mode: nat, fd: nat)

  datatype Cmd =
    | Exec(argv: seq<Span>)
    | Redir(cmd: Cmd, to: Redirection)
    | Pipe(left: Cmd, right: Cmd)
    | List(left: Cmd, right: Cmd)
    | Back(cmd: Cmd)

  datatype Parsed = Ok(cmd: Cmd, pos: nat) | Panic
  datatype Redirs = Redirs(list: seq<Redirection>, pos: nat) | NoFile

  predicate IsSpace(c: char) {
    c == ' ' || c == '\t' || c == '\r' || c == '\n' || c == '\U{0B}'
  }

  predicate IsSymbol(c: char) {
    c == '<' || c == '|' || c == '>' || c == '&' || c == ';' || c == '(' || c == ')'
  }

  /** whitespace[] and symbols[]. */
  lemma Characters(c: char)
    ensures IsSpace(c) <==> c in " \t\r\n\U{0B}"
    ensures IsSymbol(c) <==> c in "<|>&;()"
  {
  }

  predicate IsWordChar(c: char) {
    !IsSpace(c) && !IsSymbol(c)
  }

  function SkipSpace(s: string, p: nat): (r: nat)
    requires p <= |s|
    ensures p <= r <= |s| && (r < |s| ==> !IsSpace(s[r])) && (p == |s| || !IsSpace(s[p]) ==> r == p)
    decreases |s| - p
  {
    if p < |s| && IsSpace(s[p]) then SkipSpace(s, p + 1) else p
  }

  function WordEnd(s: string, p: nat): (r: nat)
    requires p <= |s|
    ensures p <= r <= |s| && (r < |s| ==> !IsWordChar(s[r])) && forall i | p <= i < r :: IsWordChar(s[i])
    ensures p < |s| && IsWordChar(s[p]) ==> p < r
    decreases |s| - p
  {
    if p < |s| && IsWordChar(s[p]) then WordEnd(s, p + 1) else p
  }

  /** peek: the next character that is not white space is one of toks. */
  predicate Sees(s: string, p: nat, toks: string)
    requires p <= |s|
  {
    var q := SkipSpace(s, p);
    q < |s| && s[q] in toks
  }

  datatype Token = End | Symbol(c: char) | Append | Word
  datatype Lexeme = Lexeme(tok: Token, q: nat, eq: nat, next: nat)

  function TokenAt(s: string, q: nat): Token
    requires q <= |s|
  {
    if q == |s| then End
    else if s[q] == '>' && q + 1 < |s| && s[q + 1] == '>' then Append
    else if IsSymbol(s[q]) then Symbol(s[q])
    else Word
  }

  function TokenEnd(s: string, q: nat): (r: nat)
    requires q <= |s| && (q < |s| ==> !IsSpace(s[q]))
    ensures q <= r <= |s| && (q < |s| ==> q < r)
  {
    match TokenAt(s, q)
    case End => q
    case Symbol(_) => q + 1
    case Append => q + 2
    case Word => WordEnd(s, q)
  }

  /** gettoken: the next token, where it is, and where the one after it starts. */
  function Lex(s: string, p: nat): (l: Lexeme)
    requires p <= |s|
    ensures p <= l.q <= l.eq <= l.next <= |s| && (l.tok != End ==> p < l.next) && (l.tok == End <==> l.q == |s|)
    ensures l.tok == Word ==> WordAt(s, Span(l.q, l.eq))
  {
    var q := SkipSpace(s, p);
    var eq := TokenEnd(s, q);
    Lexeme(TokenAt(s, q), q, eq, SkipSpace(s, eq))
  }

  /** A word: word characters up to a delimiter or the end of the line. */
  ghost predicate WordAt(s: string, w: Span) {
    && w.q < w.eq <= |s|
    && (forall i | w.q <= i < w.eq :: IsWordChar(s[i]))
    && (w.eq < |s| ==> !IsWordChar(s[w.eq]))
  }

  function RedirectionOf(tok: Token, file: Span): Redirection {
    if tok == Symbol('<') then Redirection(file, O_RDONLY, 0) else Redirection(file, O_OUT, 1)
  }

  /** parseredirs: as many redirections as there are, each with a file. */
  function ParseRedirs(s: string, list: seq<Redirection>, p: nat): (r: Redirs)
    requires p <= |s|
    ensures r.Redirs? ==> p <= r.pos <= |s| && list <= r.list
    decreases |s| - p
  {
    if !Sees(s, p, "<>") then Redirs(list, SkipSpace(s, p))
    else
      var op := Lex(s, p);
      var file := Lex(s, op.next);
      if file.tok != Word then NoFile
      else
        ParseRedirs(s, list + [RedirectionOf(op.tok, Span(file.q, file.eq))], file.next)
  }

  /** One redirection: an operator and its file. */
  lemma RedirsFile(s: string, list: seq<Redirection>, p: nat, op: Lexeme, file: Lexeme)
    requires p <= |s| && Sees(s, p, "<>") && Lex(s, p) == op && Lex(s, op.next) == file && file.tok == Word
    ensures ParseRedirs(s, list, p) == ParseRedirs(s, list + [RedirectionOf(op.tok, Span(file.q, file.eq))], file.next)
  {
  }

  /** Redirections wrap a command, the first one innermost. */
  function Wrap(cmd: Cmd, list: seq<Redirection>): Cmd {
    if list == [] then cmd else Redir(Wrap(cmd, list[..|list| - 1]), list[|list| - 1])
  }

  /** The loop of parseexec. */
  function ParseArgs(s: string, argv: seq<Span>, list: seq<Redirection>, p: nat): (r: Parsed)
    requires p <= |s|
    ensures r.Ok? ==> p <= r.pos <= |s|
    decreases |s| - p
  {
    if Sees(s, p, "|)&;") then Ok(Wrap(Exec(argv), list), SkipSpace(s, p))
    else
      var l := Lex(s, p);
      if l.tok == End then Ok(Wrap(Exec(argv), list), l.next)
      else if l.tok != Word || |argv| + 1 >= MAXARGS then Panic
      else
        match ParseRedirs(s, list, l.next)
        case NoFile => Panic
        case Redirs(list2, p2) => ParseArgs(s, argv + [Span(l.q, l.eq)], list2, p2)
  }

  /** One word, with the redirections behind it. */
  lemma ArgsWord(s: string, argv: seq<Span>, list: seq<Redirection>, p: nat, w: Span, next: nat,
                 list2: seq<Redirection>, p2: nat)
    requires p <= |s| && !Sees(s, p, "|)&;") && |argv| + 1 < MAXARGS && Lex(s, p) == Lexeme(Word, w.q, w.eq, next)
    requires ParseRedirs(s, list, next) == Redirs(list2, p2)
    ensures ParseArgs(s, argv, list, p) == ParseArgs(s, argv + [w], list2, p2)
  {
    assert Span(w.q, w.eq) == w;
  }

  function ParseExec(s: string, p: nat): (r: Parsed)
    requires p <= |s|
    ensures r.Ok? ==> p <= r.pos <= |s|
    decreases |s| - p, 1
  {
    if Sees(s, p, "(") then ParseBlock(s, p)
    else
      match ParseRedirs(s, [], p)
      case NoFile => Panic
      case Redirs(list, p1) => ParseArgs(s, [], list, p1)
  }

  function ParseBlock(s: string, p: nat): (r: Parsed)
    requires p <= |s| && Sees(s, p, "(")
    ensures r.Ok? ==> p <= r.pos <= |s|
    decreases |s| - p, 0
  {
    match ParseLine(s, Lex(s, p).next)
    case Panic => Panic
    case Ok(cmd, p1) =>
      if !Sees(s, p1, ")") then Panic
      else
        match ParseRedirs(s, [], Lex(s, p1).next)
        case NoFile => Panic
        case Redirs(list, p2) => Ok(Wrap(cmd, list), p2)
  }

  function ParsePipe(s: string, p: nat): (r: Parsed)
    requires p <= |s|
    ensures r.Ok? ==> p <= r.pos <= |s|
    decreases |s| - p, 2
  {
    match ParseExec(s, p)
    case Panic => Panic
    case Ok(cmd, p1) => PipeTail(s, cmd, p1)
  }

  function PipeTail(s: string, cmd: Cmd, p: nat): (r: Parsed)
    requires p <= |s|
    ensures r.Ok? ==> p <= r.pos <= |s|
    decreases |s| - p, 0
  {
    if !Sees(s, p, "|") then Ok(cmd, SkipSpace(s, p))
    else
      match ParsePipe(s, Lex(s, p).next)
      case Panic => Panic
      case Ok(right, p1) => Ok(Pipe(cmd, right), p1)
  }

  function ParseLine(s: string, p: nat): (r: Parsed)
    requires p <= |s|
    ensures r.Ok? ==> p <= r.pos <= |s|
    decreases |s| - p, 3
  {
    match ParsePipe(s, p)
    case Panic => Panic
    case Ok(cmd, p1) => LineTail(s, cmd, p1)
  }

  /** What may follow a pipeline: any number of '&', then perhaps ';' and another line. */
  function LineTail(s: string, cmd: Cmd, p: nat): (r: Parsed)
    requires p <= |s|
    ensures r.Ok? ==> p <= r.pos <= |s|
    decreases |s| - p, 0
  {
    if Sees(s, p, "&") then LineTail(s, Back(cmd), Lex(s, p).next)
    else if !Sees(s, p, ";") then Ok(cmd, SkipSpace(s, p))
    else
      match ParseLine(s, Lex(s, p).next)
      case Panic => Panic
      case Ok(right, p1) => Ok(List(cmd, right), p1)
  }

  function ParseCmd(s: string): (r: Parsed) {
    match ParseLine(s, 0)
    case Panic => Panic
    case Ok(cmd, p) => if SkipSpace(s, p) != |s| then Panic else Ok(cmd, |s|)
  }
}
