/** What the grammar promises of every line: each span is a word; and single steps of the parser. */
module ShellTheorems {
  import opened ShellGrammar

  // ---- Every span of a parsed command is a word of the line ----

  ghost predicate WordsOk(s: string, cmd: Cmd) {
    match cmd
    case Exec(argv) => forall i | 0 <= i < |argv| :: WordAt(s, argv[i])
    case Redir(c, to) => WordsOk(s, c) && WordAt(s, to.file)
    case Pipe(l, r) => WordsOk(s, l) && WordsOk(s, r)
    case List(l, r) => WordsOk(s, l) && WordsOk(s, r)
    case Back(c) => WordsOk(s, c)
  }

  ghost predicate FilesOk(s: string, list: seq<Redirection>) {
    forall i | 0 <= i < |list| :: WordAt(s, list[i].file)
  }

  lemma {:induction false} WrapWords(s: string, cmd: Cmd, list: seq<Redirection>)
    requires WordsOk(s, cmd) && FilesOk(s, list)
    ensures WordsOk(s, Wrap(cmd, list))
  {
    if list != [] {
      WrapWords(s, cmd, list[..|list| - 1]);
    }
  }

  lemma {:induction false} RedirsWords(s: string, list: seq<Redirection>, p: nat)
    requires p <= |s| && FilesOk(s, list)
    ensures ParseRedirs(s, list, p).Redirs? ==> FilesOk(s, ParseRedirs(s, list, p).list)
    decreases |s| - p
  {
    if Sees(s, p, "<>") {
      var op := Lex(s, p);
      var file := Lex(s, op.next);
      if file.tok == Word {
        RedirsWords(s, list + [RedirectionOf(op.tok, Span(file.q, file.eq))], file.next);
      }
    }
  }

  lemma {:induction false} ArgsWords(s: string, argv: seq<Span>, list: seq<Redirection>, p: nat)
    requires p <= |s| && WordsOk(s, Exec(argv)) && FilesOk(s, list)
    ensures ParseArgs(s, argv, list, p).Ok? ==> WordsOk(s, ParseArgs(s, argv, list, p).cmd)
    decreases |s| - p
  {
    var l := Lex(s, p);
    WrapWords(s, Exec(argv), list);
    if !Sees(s, p, "|)&;") && l.tok == Word && |argv| + 1 < MAXARGS {
      RedirsWords(s, list, l.next);
      var r := ParseRedirs(s, list, l.next);
      if r.Redirs? {
        ArgsWords(s, argv + [Span(l.q, l.eq)], r.list, r.pos);
      }
    }
  }

  lemma {:induction false} ExecWords(s: string, p: nat)
    requires p <= |s|
    ensures ParseExec(s, p).Ok? ==> WordsOk(s, ParseExec(s, p).cmd)
    decreases |s| - p, 1
  {
    if Sees(s, p, "(") {
      BlockWords(s, p);
    } else {
      RedirsWords(s, [], p);
      var r := ParseRedirs(s, [], p);
      if r.Redirs? {
        ArgsWords(s, [], r.list, r.pos);
      }
    }
  }

  lemma {:induction false} BlockWords(s: string, p: nat)
    requires p <= |s| && Sees(s, p, "(")
    ensures ParseBlock(s, p).Ok? ==> WordsOk(s, ParseBlock(s, p).cmd)
    decreases |s| - p, 0
  {
    LineWords(s, Lex(s, p).next);
    var line := ParseLine(s, Lex(s, p).next);
    if line.Ok? && Sees(s, line.pos, ")") {
      RedirsWords(s, [], Lex(s, line.pos).next);
      var r := ParseRedirs(s, [], Lex(s, line.pos).next);
      if r.Redirs? {
        WrapWords(s, line.cmd, r.list);
      }
    }
  }

  lemma {:induction false} PipeWords(s: string, p: nat)
    requires p <= |s|
    ensures ParsePipe(s, p).Ok? ==> WordsOk(s, ParsePipe(s, p).cmd)
    decreases |s| - p, 2
  {
    ExecWords(s, p);
    var e := ParseExec(s, p);
    if e.Ok? && Sees(s, e.pos, "|") {
      PipeWords(s, Lex(s, e.pos).next);
    }
  }

  lemma {:induction false} LineWords(s: string, p: nat)
    requires p <= |s|
    ensures ParseLine(s, p).Ok? ==> WordsOk(s, ParseLine(s, p).cmd)
    decreases |s| - p, 3
  {
    PipeWords(s, p);
    var e := ParsePipe(s, p);
    if e.Ok? {
      TailWords(s, e.cmd, e.pos);
    }
  }

  lemma {:induction false} TailWords(s: string, cmd: Cmd, p: nat)
    requires p <= |s| && WordsOk(s, cmd)
    ensures LineTail(s, cmd, p).Ok? ==> WordsOk(s, LineTail(s, cmd, p).cmd)
    decreases |s| - p, 0
  {
    if Sees(s, p, "&") {
      TailWords(s, Back(cmd), Lex(s, p).next);
    } else if Sees(s, p, ";") {
      LineWords(s, Lex(s, p).next);
    }
  }

  // ---- Leading white space does not matter ----

  lemma SameExec(s: string, p: nat)
    requires p <= |s|
    ensures ParseExec(s, SkipSpace(s, p)) == ParseExec(s, p)
  {
    var q := SkipSpace(s, p);
    assert Lex(s, q) == Lex(s, p);
    assert Sees(s, q, "(") == Sees(s, p, "(") && Sees(s, q, "<>") == Sees(s, p, "<>");
    if Sees(s, p, "(") {
      assert ParseBlock(s, q) == ParseBlock(s, p);
    } else {
      assert ParseRedirs(s, [], q) == ParseRedirs(s, [], p);
    }
  }

  lemma SameLine(s: string, p: nat)
    requires p <= |s|
    ensures ParsePipe(s, SkipSpace(s, p)) == ParsePipe(s, p) && ParseLine(s, SkipSpace(s, p)) == ParseLine(s, p)
  {
    hide ParseExec, PipeTail, LineTail;
    SameExec(s, p);
  }

  // ---- Printing and parsing ----

  predicate IsWord(w: string) {
    w != "" && forall i | 0 <= i < |w| :: IsWordChar(w[i])
  }

  ghost predicate Spells(s: string, w: Span, text: string) {
    w.q <= w.eq <= |s| && s[w.q..w.eq] == text
  }

  /** The line reads text from position p on. */
  ghost predicate At(s: string, p: nat, text: string) {
    p + |text| <= |s| && s[p..p + |text|] == text
  }

  lemma AtChar(s: string, p: nat, text: string, i: nat)
    requires At(s, p, text) && i < |text|
    ensures s[p + i] == text[i]
  {
    assert s[p..p + |text|][i] == s[p + i];
  }

  lemma AtSplit(s: string, p: nat, u: string, v: string)
    requires At(s, p, u + v)
    ensures At(s, p, u) && At(s, p + |u|, v)
  {
    var n := p + |u| + |v|;
    assert s[p..p + |u|] == s[p..n][..|u|] == (u + v)[..|u|] == u;
    assert s[p + |u|..n] == s[p..n][|u|..] == (u + v)[|u|..] == v;
  }

  /** A command ends at the end of the line or before a closing parenthesis. */
  ghost predicate Ends(s: string, p: nat) {
    p == |s| || (p < |s| && s[p] == ')')
  }

  // Single steps of the parser.

  lemma SymbolAt(s: string, p: nat)
    requires p < |s| && IsSymbol(s[p]) && (s[p] == '>' && p + 1 < |s| ==> s[p + 1] != '>')
    ensures SkipSpace(s, p) == p && Lex(s, p).tok == Symbol(s[p]) && Lex(s, p).next == SkipSpace(s, p + 1)
  {
  }

  lemma {:induction false} WordEndIs(s: string, p: nat, e: nat)
    requires p <= e <= |s| && (forall i | p <= i < e :: IsWordChar(s[i])) && (e < |s| ==> !IsWordChar(s[e]))
    ensures WordEnd(s, p) == e
    decreases e - p
  {
    if p < e {
      WordEndIs(s, p + 1, e);
    }
  }

  lemma WordLexed(s: string, p: nat, w: string)
    requires IsWord(w) && At(s, p, w) && (p + |w| < |s| ==> !IsWordChar(s[p + |w|]))
    ensures p < |s| && IsWordChar(s[p]) && SkipSpace(s, p) == p
    ensures Lex(s, p) == Lexeme(Word, p, p + |w|, SkipSpace(s, p + |w|))
    ensures Spells(s, Span(p, p + |w|), w)
  {
    forall i | p <= i < p + |w| ensures IsWordChar(s[i]) {
      AtChar(s, p, w, i - p);
    }
    WordEndIs(s, p, p + |w|);
  }

  function Redirected(cmd: Cmd, r: Redirs): Parsed {
    match r
    case NoFile => Panic
    case Redirs(list, p) => Ok(Wrap(cmd, list), p)
  }

  /** Nothing but the end or ')' follows: the tails stop here. */
  lemma TailsStop(s: string, cmd: Cmd, p: nat)
    requires Ends(s, p)
    ensures PipeTail(s, cmd, p) == Ok(cmd, p) && LineTail(s, cmd, p) == Ok(cmd, p)
  {
    assert !Sees(s, p, "|") && !Sees(s, p, "&") && !Sees(s, p, ";");
  }

  lemma {:induction false} TwoBlocksText(s: string, p: nat, a: string, op: string, b: string)
    requires At(s, p, a + op + b) && |op| == 1
    ensures At(s, p, a) && p + |a| < |s| && s[p + |a|] == op[0] && At(s, p + |a| + 1, b)
  {
    AtSplit(s, p, a + op, b);
    AtSplit(s, p, a, op);
    AtChar(s, p + |a|, op, 0);
  }

  ghost predicate Spelled(s: string, spans: seq<Span>, args: seq<string>) {
    |spans| == |args| && forall i | 0 <= i < |args| :: Spells(s, spans[i], args[i])
  }

  lemma SpelledCons(s: string, span: Span, spans: seq<Span>, word: string, args: seq<string>)
    requires Spells(s, span, word) && Spelled(s, spans, args)
    ensures Spelled(s, [span] + spans, [word] + args)
  {
  }

  lemma Regroup<T>(a: seq<T>, b: T, c: seq<T>)
    ensures a + ([b] + c) == a + [b] + c
  {
  }

  lemma WholeLine(s: string, p: nat, cmd: Cmd, e: nat)
    requires p <= |s| && ParseExec(s, p) == Ok(cmd, e) && Ends(s, e)
    ensures ParsePipe(s, p) == Ok(cmd, e) && ParseLine(s, p) == Ok(cmd, e)
  {
    TailsStop(s, cmd, e);
  }
}
