/**
 The recursive-descent parser of sh.c with its cursor, and nulterminate on the line buffer.

 The cursor *ps is a field. A panic ends the shell process; here the methods return Panic
 or false and the cursor no longer matters.
 */
module Shell {
  import opened ShellGrammar
  import opened ShellTheorems

  /** The command the methods return; positions are in the cursor. */
  datatype Result = Done(cmd: Cmd) | Died

  /** How a round of parseexec's loop ends. */
  datatype Round = More | Finished | Broken

  class Parser {
    const s: string
    var ps: nat

    constructor (line: string)
      ensures s == line && ps == 0
    {
      s := line;
      ps := 0;
    }

    /** Result and cursor are those of the grammar. */
    ghost predicate Agrees(r: Result, spec: Parsed)
      reads this
    {
      ps <= |s| && if spec.Ok? then r == Done(spec.cmd) && ps == spec.pos else r == Died
    }

    method Peek(toks: string) returns (b: bool)
      requires ps <= |s|
      modifies this
      ensures ps == SkipSpace(s, old(ps)) && b == Sees(s, old(ps), toks)
    {
      while ps < |s| && IsSpace(s[ps])
        invariant old(ps) <= ps <= |s| && SkipSpace(s, ps) == SkipSpace(s, old(ps))
      {
        ps := ps + 1;
      }
      b := ps < |s| && s[ps] in toks;
    }

    /** Peeking changes nothing for those who look next. */
    lemma SkippedSame(p: nat)
      requires p <= |s|
      ensures SkipSpace(s, SkipSpace(s, p)) == SkipSpace(s, p) && Lex(s, SkipSpace(s, p)) == Lex(s, p)
      ensures forall toks: string :: Sees(s, SkipSpace(s, p), toks) == Sees(s, p, toks)
    {
    }

    method GetToken() returns (tok: Token, q: nat, eq: nat)
      requires ps <= |s|
      modifies this
      ensures Lexeme(tok, q, eq, ps) == Lex(s, old(ps)) && ps <= |s|
    {
      var none := Peek("");
      q := ps;
      if q == |s| {
        tok := End;
      } else if s[q] == '|' || s[q] == '(' || s[q] == ')' || s[q] == ';' || s[q] == '&' || s[q] == '<' {
        tok := Symbol(s[q]);
        ps := ps + 1;
      } else if s[q] == '>' {
        tok := Symbol('>');
        ps := ps + 1;
        if ps < |s| && s[ps] == '>' {
          tok := Append;
          ps := ps + 1;
        }
      } else {
        tok := Word;
        while ps < |s| && !IsSpace(s[ps]) && !IsSymbol(s[ps])
          invariant q <= ps <= |s| && WordEnd(s, ps) == WordEnd(s, q)
        {
          ps := ps + 1;
        }
      }
      eq := ps;
      none := Peek("");
    }

    method ParseRedirections(list: seq<Redirection>) returns (all: seq<Redirection>, ok: bool)
      requires ps <= |s|
      modifies this
      ensures ps <= |s| && ok == ParseRedirs(s, list, old(ps)).Redirs?
      ensures ok ==> ParseRedirs(s, list, old(ps)) == Redirs(all, ps)
    {
      all := list;
      ghost var spec := ParseRedirs(s, list, ps);
      ghost var p := ps;
      var more := Peek("<>");
      SkippedSame(p);
      while more
        invariant p <= |s| && ps == SkipSpace(s, p) && more == Sees(s, p, "<>")
        invariant ParseRedirs(s, all, p) == spec
        decreases |s| - p
      {
        SkippedSame(p);
        var op, q0, eq0 := GetToken();
        var tok, q, eq := GetToken();
        if tok != Word {
          return all, false;
        }
        all := all + [RedirectionOf(op, Span(q, eq))];
        p := ps;
        more := Peek("<>");
      }
      ok := true;
    }

    method Simple() returns (r: Result)
      requires ps <= |s|
      modifies this
      ensures Agrees(r, ParseExec(s, old(ps)))
      decreases |s| - ps, 1
    {
      ghost var p0 := ps;
      var block := Peek("(");
      SkippedSame(p0);
      SameExec(s, p0);
      if block {
        r := Block();
        return;
      }
      var list, ok := ParseRedirections([]);
      if !ok {
        return Died;
      }
      r := Arguments(list);
    }

    /** The loop of parseexec. */
    method Arguments(list: seq<Redirection>) returns (r: Result)
      requires ps <= |s|
      modifies this
      ensures Agrees(r, ParseArgs(s, [], list, old(ps)))
    {
      var argv := new Span[MAXARGS](_ => Span(0, 0));
      var argc, all, o := 0, list, More;
      ghost var p := ps;
      ghost var spec := ParseArgs(s, [], list, ps);
      var stop := Peek("|)&;");
      while !stop
        invariant p <= |s| && ps == SkipSpace(s, p) && stop == Sees(s, p, "|)&;")
        invariant 0 <= argc < MAXARGS && ParseArgs(s, argv[..argc], all, p) == spec
        decreases |s| - p, !stop
      {
        o, all := Argument(argv, argc, all, p);
        if o == Broken {
          return Died;
        }
        if o == Finished {
          return Done(Wrap(Exec(argv[..argc]), all));
        }
        argc := argc + 1;
        p := ps;
        stop := Peek("|)&;");
      }
      r := Done(Wrap(Exec(argv[..argc]), all));
    }

    /** One round of it: a word and the redirections behind it. */
    method Argument(argv: array<Span>, argc: nat, list: seq<Redirection>, ghost p: nat)
      returns (o: Round, all: seq<Redirection>)
      requires p <= |s| && ps == SkipSpace(s, p) && !Sees(s, p, "|)&;") && argv.Length == MAXARGS && argc < MAXARGS
      modifies this, argv
      ensures ps <= |s| && argv[..argc] == old(argv[..argc])
      ensures o == Broken ==> ParseArgs(s, old(argv[..argc]), list, p) == Panic
      ensures o == Finished ==> all == list
      ensures o == Finished ==> ParseArgs(s, old(argv[..argc]), list, p) == Ok(Wrap(Exec(old(argv[..argc])), list), ps)
      ensures o == More ==> p < ps && argc + 1 < MAXARGS
      ensures o == More ==> ParseArgs(s, argv[..argc + 1], all, ps) == ParseArgs(s, old(argv[..argc]), list, p)
    {
      SkippedSame(p);
      all := list;
      ghost var words := argv[..argc];
      var tok, q, eq := GetToken();
      if tok == End {
        return Finished, all;
      }
      if tok != Word {
        return Broken, all;
      }
      argv[argc] := Span(q, eq);
      assert argv[..argc] == words && argv[..argc + 1] == words + [Span(q, eq)];
      if argc + 1 >= MAXARGS {
        return Broken, all;
      }
      ghost var next := ps;
      var ok;
      all, ok := ParseRedirections(list);
      if !ok {
        return Broken, all;
      }
      ArgsWord(s, words, list, p, Span(q, eq), next, all, ps);
      o := More;
    }

    method Block() returns (r: Result)
      requires ps <= |s| && Sees(s, ps, "(")
      modifies this
      ensures Agrees(r, ParseBlock(s, old(ps)))
      decreases |s| - ps, 0
    {
      var tok, q, eq := GetToken();
      r := Line();
      if r.Died? {
        return;
      }
      ghost var p := ps;
      var closed := Peek(")");
      if !closed {
        return Died;
      }
      SkippedSame(p);
      tok, q, eq := GetToken();
      var list, ok := ParseRedirections([]);
      if !ok {
        return Died;
      }
      r := Done(Wrap(r.cmd, list));
    }

    method Pipeline() returns (r: Result)
      requires ps <= |s|
      modifies this
      ensures Agrees(r, ParsePipe(s, old(ps)))
      decreases |s| - ps, 2
    {
      r := Simple();
      if r.Died? {
        return;
      }
      ghost var p := ps;
      var more := Peek("|");
      SkippedSame(p);
      if more {
        var tok, q, eq := GetToken();
        var right := Pipeline();
        if right.Died? {
          return Died;
        }
        r := Done(Pipe(r.cmd, right.cmd));
      }
    }

    method Line() returns (r: Result)
      requires ps <= |s|
      modifies this
      ensures Agrees(r, ParseLine(s, old(ps)))
      decreases |s| - ps, 3
    {
      ghost var spec := ParseLine(s, ps);
      r := Pipeline();
      if r.Died? {
        return;
      }
      var cmd := r.cmd;
      ghost var p := ps;
      var more := Peek("&");
      while more
        invariant old(ps) <= p <= |s| && ps == SkipSpace(s, p) && more == Sees(s, p, "&") && LineTail(s, cmd, p) == spec
        decreases |s| - p
      {
        SkippedSame(p);
        var tok, q, eq := GetToken();
        cmd := Back(cmd);
        p := ps;
        more := Peek("&");
      }
      SkippedSame(p);
      more := Peek(";");
      if more {
        var tok, q, eq := GetToken();
        var right := Line();
        if right.Died? {
          return Died;
        }
        cmd := List(cmd, right.cmd);
      }
      r := Done(cmd);
    }

    /** parsecmd up to nulterminate. */
    method Command() returns (r: Result)
      requires ps == 0
      modifies this
      ensures if ParseCmd(s).Ok? then r == Done(ParseCmd(s).cmd) else r == Died
    {
      r := Line();
      if r.Died? {
        return;
      }
      var none := Peek("");
      if ps != |s| {
        return Died;
      }
    }
  }

  /** Skipping white space first does not change what an exec is. */
  // ---- nulterminate ----

  function Spans(cmd: Cmd): set<Span> {
    match cmd
    case Exec(argv) => set w | w in argv
    case Redir(c, to) => Spans(c) + {to.file}
    case Pipe(l, r) => Spans(l) + Spans(r)
    case List(l, r) => Spans(l) + Spans(r)
    case Back(c) => Spans(c)
  }

  /** A NUL at the end of every span. */
  ghost predicate Nulled(before: seq<char>, after: seq<char>, spans: set<Span>) {
    && |after| == |before|
    && (forall w | w in spans :: w.eq < |after| ==> after[w.eq] == '\0')
    && (forall i | 0 <= i < |before| :: after[i] == before[i] || (after[i] == '\0' && IsEnd(spans, i)))
  }

  ghost predicate IsEnd(spans: set<Span>, i: int) {
    exists w | w in spans :: w.eq == i
  }

  lemma NulledTwice(a: seq<char>, b: seq<char>, c: seq<char>, u: set<Span>, v: set<Span>)
    requires Nulled(a, b, u) && Nulled(b, c, v)
    ensures Nulled(a, c, u + v)
  {
    forall i | 0 <= i < |a| ensures c[i] == a[i] || (c[i] == '\0' && IsEnd(u + v, i)) {
      if IsEnd(u, i) {
        var w :| w in u && w.eq == i;
        assert w in u + v;
      }
      if IsEnd(v, i) {
        var w :| w in v && w.eq == i;
        assert w in u + v;
      }
    }
  }

  ghost predicate InBuffer(cmd: Cmd, n: nat) {
    forall w | w in Spans(cmd) :: w.eq < n
  }

  /** nulterminate: in place, over the whole tree. */
  method NulTerminate(buf: array<char>, cmd: Cmd)
    requires InBuffer(cmd, buf.Length)
    modifies buf
    ensures Nulled(old(buf[..]), buf[..], Spans(cmd))
    decreases cmd
  {
    match cmd
    case Exec(argv) =>
      NulArgs(buf, argv);
    case Redir(c, to) =>
      ghost var b0 := buf[..];
      NulTerminate(buf, c);
      ghost var b1 := buf[..];
      assert to.file in Spans(cmd);
      buf[to.file.eq] := '\0';
      assert IsEnd({to.file}, to.file.eq);
      NulledTwice(b0, b1, buf[..], Spans(c), {to.file});
    case Pipe(l, r) =>
      NulBoth(buf, l, r, cmd);
    case List(l, r) =>
      NulBoth(buf, l, r, cmd);
    case Back(c) =>
      NulTerminate(buf, c);
  }

  method NulBoth(buf: array<char>, l: Cmd, r: Cmd, ghost cmd: Cmd)
    requires InBuffer(l, buf.Length) && InBuffer(r, buf.Length) && l < cmd && r < cmd
    modifies buf
    ensures Nulled(old(buf[..]), buf[..], Spans(l) + Spans(r))
    decreases cmd, 0
  {
    ghost var b0 := buf[..];
    NulTerminate(buf, l);
    ghost var b1 := buf[..];
    NulTerminate(buf, r);
    NulledTwice(b0, b1, buf[..], Spans(l), Spans(r));
  }

  method NulArgs(buf: array<char>, argv: seq<Span>)
    requires InBuffer(Exec(argv), buf.Length)
    modifies buf
    ensures Nulled(old(buf[..]), buf[..], Spans(Exec(argv)))
  {
    ghost var b0 := buf[..];
    var i := 0;
    while i < |argv|
      invariant 0 <= i <= |argv| && Nulled(b0, buf[..], Spans(Exec(argv[..i])))
    {
      assert argv[i] in Spans(Exec(argv));
      ghost var b1 := buf[..];
      buf[argv[i].eq] := '\0';
      assert IsEnd({argv[i]}, argv[i].eq);
      NulledTwice(b0, b1, buf[..], Spans(Exec(argv[..i])), {argv[i]});
      assert argv[..i + 1] == argv[..i] + [argv[i]];
      assert Spans(Exec(argv[..i + 1])) == Spans(Exec(argv[..i])) + {argv[i]};
      i := i + 1;
    }
    assert argv[..i] == argv;
  }

  /** The C string that starts at q. */
  function CString(b: seq<char>, q: nat): string
    decreases |b| - q
  {
    if q >= |b| || b[q] == '\0' then "" else [b[q]] + CString(b, q + 1)
  }

  lemma {:induction false} CStringIs(b: seq<char>, q: nat, e: nat)
    requires q <= e < |b| && b[e] == '\0' && forall i | q <= i < e :: b[i] != '\0'
    ensures CString(b, q) == b[q..e]
    decreases e - q
  {
    if q < e {
      CStringIs(b, q + 1, e);
    }
  }

  lemma {:induction false} SpanIsWord(s: string, cmd: Cmd, w: Span)
    requires WordsOk(s, cmd) && w in Spans(cmd)
    ensures WordAt(s, w)
  {
    match cmd
    case Exec(argv) =>
    case Redir(c, to) =>
      if w in Spans(c) {
        SpanIsWord(s, c, w);
      }
    case Pipe(l, r) =>
      if w in Spans(l) {
        SpanIsWord(s, l, w);
      } else {
        SpanIsWord(s, r, w);
      }
    case List(l, r) =>
      if w in Spans(l) {
        SpanIsWord(s, l, w);
      } else {
        SpanIsWord(s, r, w);
      }
    case Back(c) =>
      SpanIsWord(s, c, w);
  }

  /** The line in a buffer: everything before the first NUL. */
  ghost predicate HoldsLine(b: seq<char>, s: string) {
    |s| < |b| && b[..|s|] == s && b[|s|] == '\0' && '\0' !in s
  }

  /** In the buffer, the span is the C string of its text. */
  ghost predicate IsString(s: string, b: seq<char>, w: Span) {
    w.q <= w.eq <= |s| && CString(b, w.q) == s[w.q..w.eq]
  }

  /** Every argument and file name becomes exactly its word: no terminator falls inside another word. */
  lemma WordsBecomeStrings(s: string, cmd: Cmd, a: seq<char>, b: seq<char>, w: Span)
    requires WordsOk(s, cmd) && HoldsLine(a, s) && w in Spans(cmd) && Nulled(a, b, Spans(cmd))
    ensures IsString(s, b, w)
  {
    SpanIsWord(s, cmd, w);
    forall i | w.q <= i < w.eq ensures b[i] == s[i] {
      NotAnEnd(s, cmd, i);
      assert a[i] == a[..|s|][i] == s[i];
    }
    CStringIs(b, w.q, w.eq);
    assert b[w.q..w.eq] == s[w.q..w.eq];
  }

  lemma NotAnEnd(s: string, cmd: Cmd, i: nat)
    requires WordsOk(s, cmd) && i < |s| && IsWordChar(s[i])
    ensures !IsEnd(Spans(cmd), i)
  {
    forall w | w in Spans(cmd) ensures w.eq != i {
      SpanIsWord(s, cmd, w);
    }
  }

  /** parsecmd: the command of the grammar, with every word a string in the buffer. */
  method ParseCommand(buf: array<char>) returns (r: Result, ghost line: string)
    requires '\0' in buf[..]
    modifies buf
    ensures HoldsLine(old(buf[..]), line)
    ensures if ParseCmd(line).Ok? then r == Done(ParseCmd(line).cmd) else r == Died
    ensures r.Done? ==> forall w | w in Spans(r.cmd) :: IsString(line, buf[..], w)
  {
    var n := 0;
    while buf[n] != '\0'
      invariant 0 <= n < buf.Length && '\0' !in buf[..n] && '\0' in buf[n..] && buf[..] == old(buf[..])
      decreases buf.Length - n
    {
      assert '\0' in buf[n + 1..];
      n := n + 1;
    }
    var text := buf[..n];
    line := text;
    var p := new Parser(text);
    r := p.Command();
    if r.Done? {
      LineWords(line, 0);
      Within(line, r.cmd);
      ghost var b0 := buf[..];
      NulTerminate(buf, r.cmd);
      forall w | w in Spans(r.cmd) ensures IsString(line, buf[..], w) {
        WordsBecomeStrings(line, r.cmd, b0, buf[..], w);
      }
    }
  }

  lemma Within(s: string, cmd: Cmd)
    requires WordsOk(s, cmd)
    ensures InBuffer(cmd, |s| + 1)
  {
    forall w | w in Spans(cmd) ensures w.eq < |s| + 1 {
      SpanIsWord(s, cmd, w);
    }
  }
}
