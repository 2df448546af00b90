/** The other direction: every line that the parser accepts is the text of a line of the grammar. */
module ShellLanguage {
  import opened ShellGrammar
  import opened ShellTheorems
  import opened ShellCommands
  import opened ShellLines

  /** Positions p..e of the line hold text. */
  ghost predicate Holds(s: string, p: nat, e: nat, text: string) {
    p <= e <= |s| && s[p..e] == text
  }

  lemma Joined(s: string, p: nat, m: nat, e: nat, a: string, b: string)
    requires Holds(s, p, m, a) && Holds(s, m, e, b)
    ensures Holds(s, p, e, a + b)
  {
    assert s[p..e] == s[p..m] + s[m..e];
  }

  // ---- White space and items ----

  lemma {:induction false} SkippedWhite(s: string, p: nat)
    requires p <= |s|
    ensures White(s[p..SkipSpace(s, p)])
    decreases |s| - p
  {
    if p < |s| && IsSpace(s[p]) {
      SkippedWhite(s, p + 1);
      var e := SkipSpace(s, p);
      assert s[p..e] == [s[p]] + s[p + 1..e];
    }
  }

  /** The item at p, its word up to a character that cannot continue it. */
  ghost predicate OneRead(s: string, p: nat, it: Item) {
    && ItemOk(it) && Holds(s, p, ItemEnd(p, it), PrintItem(it))
    && (WordStop(p, it) < |s| ==> !IsWordChar(s[WordStop(p, it)]))
  }

  ghost predicate Reads(s: string, p: nat, e: nat, items: seq<Item>)
    decreases |items|
  {
    if items == [] then p == e <= |s| else OneRead(s, p, items[0]) && Reads(s, ItemEnd(p, items[0]), e, items[1..])
  }

  lemma ReadsCons(s: string, p: nat, e: nat, it: Item, items: seq<Item>)
    requires OneRead(s, p, it) && Reads(s, ItemEnd(p, it), e, items)
    ensures Reads(s, p, e, [it] + items) && |Args([it] + items)| == |Args(items)| + if it.Arg? then 1 else 0
  {
    assert ([it] + items)[1..] == items;
  }

  lemma {:induction false} ReadsMore(s: string, p: nat, m: nat, e: nat, a: seq<Item>, b: seq<Item>)
    requires Reads(s, p, m, a) && Reads(s, m, e, b)
    ensures Reads(s, p, e, a + b) && |Args(a + b)| == |Args(a)| + |Args(b)|
    decreases |a|
  {
    hide OneRead, ItemEnd;
    if a == [] {
      assert a + b == b;
    } else {
      ReadsMore(s, ItemEnd(p, a[0]), m, e, a[1..], b);
      ReadsCons(s, p, e, a[0], a[1..] + b);
      assert [a[0]] + (a[1..] + b) == a + b;
    }
  }

  lemma {:induction false} ReadsText(s: string, p: nat, e: nat, items: seq<Item>)
    requires Reads(s, p, e, items)
    ensures Holds(s, p, e, PrintItems(items)) && ItemsOk(items)
    ensures items != [] && items[0].Arg? ==> p < |s| && IsWordChar(s[p])
    decreases |items|
  {
    hide Holds, PrintItem;
    if items == [] {
      Nothing(s, p);
    } else {
      var it, q := items[0], ItemEnd(p, items[0]);
      ReadsText(s, q, e, items[1..]);
      Joined(s, p, q, e, PrintItem(it), PrintItems(items[1..]));
      if it.Arg? {
        ArgStarts(s, p, it);
      }
    }
  }

  lemma Nothing(s: string, p: nat)
    requires p <= |s|
    ensures Holds(s, p, p, "")
  {
  }

  lemma ArgStarts(s: string, p: nat, it: Item)
    requires it.Arg? && OneRead(s, p, it)
    ensures p < |s| && IsWordChar(s[p])
  {
    var q := ItemEnd(p, it);
    assert s[p] == s[p..q][0] == PrintItem(it)[0] == it.word[0];
  }

  // ---- What the parser has read ----

  lemma HoldsSlice(s: string, p: nat, e: nat)
    requires p <= e <= |s|
    ensures Holds(s, p, e, s[p..e])
  {
  }

  /** A word token and the white space behind it. */
  lemma WordRead(s: string, p: nat) returns (it: Item)
    requires p <= |s| && Lex(s, p).tok == Word
    ensures var l := Lex(s, p); it.Arg? && l.q == SkipSpace(s, p) && OneRead(s, l.q, it) && ItemEnd(l.q, it) == l.next
  {
    var l := Lex(s, p);
    it := Arg(s[l.q..l.eq], s[l.eq..l.next]);
    SkippedWhite(s, l.eq);
    assert l.q == SkipSpace(s, p) && l.next == SkipSpace(s, l.eq);
    ArgMade(s, l.q, l.eq, l.next);
  }

  lemma ArgMade(s: string, q: nat, eq: nat, next: nat)
    requires WordAt(s, Span(q, eq)) && eq <= next <= |s| && White(s[eq..next])
    ensures var it := Arg(s[q..eq], s[eq..next]); OneRead(s, q, it) && ItemEnd(q, it) == next
  {
    hide White;
    var it := Arg(s[q..eq], s[eq..next]);
    assert PrintItem(it) == s[q..eq] + s[eq..next] == s[q..next];
    EmptyWhite();
  }

  lemma EmptyWhite()
    ensures White("")
  {
  }

  lemma OperatorRead(s: string, p: nat) returns (op: string, k: nat)
    requires p <= |s| && Sees(s, p, "<>")
    ensures (op == "<" || op == ">" || op == ">>") && k == SkipSpace(s, p) + |op| <= |s|
    ensures Holds(s, SkipSpace(s, p), k, op) && Lex(s, p).next == SkipSpace(s, k)
  {
    var l, q := Lex(s, p), SkipSpace(s, p);
    op := if l.tok == Append then ">>" else if s[q] == '<' then "<" else ">";
    k := l.eq;
  }

  /** An operator, the white space behind it, and the word arg read as its file. */
  lemma FileMade(s: string, q: nat, op: string, k: nat, m: nat, arg: Item) returns (it: Item)
    requires op == "<" || op == ">" || op == ">>"
    requires Holds(s, q, k, op) && k <= m <= |s| && White(s[k..m]) && arg.Arg? && OneRead(s, m, arg)
    ensures !it.Arg? && OneRead(s, q, it) && ItemEnd(q, it) == ItemEnd(m, arg)
  {
    hide White, IsWord, Holds, PrintItem;
    HoldsLength(s, q, k, op);
    var sep := s[k..m];
    it := if op == "<" then From(sep, arg.word, arg.gap) else if op == ">" then To(sep, arg.word, arg.gap)
          else Onto(sep, arg.word, arg.gap);
    assert |op| == k - q && |sep| == m - k && Operator(it) == op && Sep(it) == sep;
    HoldsSlice(s, k, m);
    Joined(s, q, k, m, op, sep);
    Joined(s, q, m, ItemEnd(m, arg), op + sep, PrintItem(arg));
    Glue(arg, it);
  }

  lemma HoldsLength(s: string, p: nat, e: nat, text: string)
    requires Holds(s, p, e, text)
    ensures p + |text| == e <= |s|
  {
  }

  lemma Glue(arg: Item, it: Item)
    requires arg.Arg? && !it.Arg? && arg.word == it.word && arg.gap == it.gap
    ensures Operator(it) + Sep(it) + PrintItem(arg) == PrintItem(it)
  {
    var a, w, g := Operator(it) + Sep(it), it.word, it.gap;
    assert PrintItem(arg) == w + g;
    assert a + (w + g) == a + w + g;
  }

  lemma FileRead(s: string, p: nat) returns (it: Item)
    requires p <= |s| && Sees(s, p, "<>") && Lex(s, Lex(s, p).next).tok == Word
    ensures !it.Arg? && OneRead(s, SkipSpace(s, p), it)
    ensures ItemEnd(SkipSpace(s, p), it) == Lex(s, Lex(s, p).next).next
  {
    hide Lex, SkipSpace, Sees, OneRead, ItemEnd, Holds, White;
    var op, k := OperatorRead(s, p);
    var m := Lex(s, p).next;
    var arg := WordRead(s, m);
    SkippedWhite(s, k);
    SkipTwice(s, k);
    it := FileMade(s, SkipSpace(s, p), op, k, m, arg);
  }

  lemma SkipTwice(s: string, p: nat)
    requires p <= |s|
    ensures SkipSpace(s, SkipSpace(s, p)) == SkipSpace(s, p) && forall toks: string ::
              Sees(s, SkipSpace(s, p), toks) == Sees(s, p, toks)
  {
  }

  /** What parseredirs accepted. */
  lemma {:induction false} RedirsRead(s: string, list: seq<Redirection>, p: nat) returns (files: seq<Item>)
    requires p <= |s| && ParseRedirs(s, list, p).Redirs?
    ensures var e := ParseRedirs(s, list, p).pos; Reads(s, SkipSpace(s, p), e, files) && SkipSpace(s, e) == e
    ensures Args(files) == []
    decreases |s| - p
  {
    SkipTwice(s, p);
    if !Sees(s, p, "<>") {
      files := [];
    } else {
      hide Lex, SkipSpace, Sees, OneRead, ItemEnd;
      var l := Lex(s, Lex(s, p).next);
      var it := FileRead(s, p);
      LexSkips(s, Lex(s, p).next);
      var rest := RedirsRead(s, list + [RedirectionOf(Lex(s, p).tok, Span(l.q, l.eq))], l.next);
      files := [it] + rest;
      ReadsCons(s, SkipSpace(s, p), ParseRedirs(s, list, p).pos, it, rest);
    }
  }

  lemma LexSkips(s: string, p: nat)
    requires p <= |s|
    ensures SkipSpace(s, Lex(s, p).next) == Lex(s, p).next
  {
  }

  /** What the loop of parseexec accepted. */
  lemma {:induction false} ArgsRead(s: string, argv: seq<Span>, list: seq<Redirection>, p: nat)
    returns (items: seq<Item>)
    requires p <= |s| && ParseArgs(s, argv, list, p).Ok? && |argv| < MAXARGS
    ensures var e := ParseArgs(s, argv, list, p).pos; Reads(s, SkipSpace(s, p), e, items) && SkipSpace(s, e) == e
    ensures |argv| + |Args(items)| < MAXARGS
    decreases |s| - p
  {
    SkipTwice(s, p);
    var l := Lex(s, p);
    if Sees(s, p, "|)&;") || l.tok == End {
      items := [];
    } else {
      hide Lex, SkipSpace, Sees, OneRead, ItemEnd, Reads, Args;
      var it := WordRead(s, p);
      LexSkips(s, p);
      var r := ParseRedirs(s, list, l.next);
      var files := RedirsRead(s, list, l.next);
      var rest := ArgsRead(s, argv + [Span(l.q, l.eq)], r.list, r.pos);
      var e := ParseArgs(s, argv, list, p).pos;
      ReadsMore(s, l.next, r.pos, e, files, rest);
      items := [it] + (files + rest);
      ReadsCons(s, l.q, e, it, files + rest);
    }
  }

  /** What a parser function accepted from p on: text up to where it stopped, which is no white space. */
  ghost predicate Accepted(s: string, p: nat, r: Parsed, text: string) {
    r.Ok? && Holds(s, p, r.pos, text) && SkipSpace(s, r.pos) == r.pos
  }

  lemma SimpleRead(s: string, p: nat) returns (t: Stage)
    requires p <= |s| && ParseExec(s, p).Ok? && !Sees(s, p, "(")
    ensures StageOk(t) && Accepted(s, p, ParseExec(s, p), PrintStage(t))
  {
    hide SkipSpace, Sees, ParseArgs, ParseRedirs, Holds, Reads, ItemsOk, PrintItems, White, Args;
    var q, r := SkipSpace(s, p), ParseRedirs(s, [], p);
    var files := RedirsRead(s, [], p);
    var items := ArgsRead(s, [], r.list, r.pos);
    var e := ParseExec(s, p).pos;
    ReadsMore(s, q, r.pos, e, files, items);
    ReadsText(s, q, e, files + items);
    SkippedWhite(s, p);
    HoldsSlice(s, p, q);
    Joined(s, p, q, e, s[p..q], PrintItems(files + items));
    t := Simple(s[p..q], files + items);
  }

  lemma Opened(s: string, p: nat)
    requires p <= |s| && Sees(s, p, "(") && ParseExec(s, p).Ok?
    ensures var q := SkipSpace(s, p); q < |s| && s[q] == '(' && ParseLine(s, q + 1).Ok?
  {
    hide ParseLine, ParseRedirs, ParseArgs;
    var q := SkipSpace(s, p);
    assert Lex(s, p).next == SkipSpace(s, q + 1);
    SameLine(s, q + 1);
  }

  lemma SymbolNext(s: string, p: nat, c: string)
    requires p <= |s| && SkipSpace(s, p) == p && |c| == 1 && Sees(s, p, c) && IsSymbol(c[0]) && c[0] != '>'
    ensures p < |s| && s[p] == c[0] && Lex(s, p).next == SkipSpace(s, p + 1)
  {
    assert s[p] == c[0];
    SymbolAt(s, p);
  }

  lemma {:induction false} StageRead(s: string, p: nat) returns (t: Stage)
    requires p <= |s| && ParseExec(s, p).Ok?
    ensures StageOk(t) && Accepted(s, p, ParseExec(s, p), PrintStage(t))
    decreases |s| - p, 1
  {
    hide SkipSpace, Sees, ParseLine, ParseExec, LineOk, PrintLine, PrintStage, StageOk, Accepted;
    if Sees(s, p, "(") {
      Opened(s, p);
      var q := SkipSpace(s, p);
      var line := LineRead(s, q + 1);
      var m := ParseLine(s, q + 1).pos;
      t := GroupRead(s, p, q, m, line);
    } else {
      t := SimpleRead(s, p);
    }
  }

  lemma GroupRead(s: string, p: nat, q: nat, m: nat, line: Line) returns (t: Stage)
    requires p <= |s| && q == SkipSpace(s, p) && q < |s| && s[q] == '(' && LineOk(line)
    requires Accepted(s, q + 1, ParseLine(s, q + 1), PrintLine(line)) && m == ParseLine(s, q + 1).pos
    requires ParseExec(s, p).Ok?
    ensures StageOk(t) && Accepted(s, p, ParseExec(s, p), PrintStage(t))
  {
    hide SkipSpace, Sees, Lex, ParseLine, ParseRedirs, ParseExec, LineOk, PrintLine, Holds, Reads, ItemsOk, PrintItems;
    hide White, Args;
    BlockEnds(s, p, q, m);
    var k := SkipSpace(s, m + 1);
    var files := RedirsRead(s, [], k);
    SkipTwice(s, m + 1);
    var e := ParseRedirs(s, [], k).pos;
    ReadsText(s, k, e, files);
    SkippedWhite(s, p);
    SkippedWhite(s, m + 1);
    t := Group(s[p..q], line, s[m + 1..k], files);
    GroupJoined(s, p, q, m, k, e, t);
  }

  /** The block is closed at m, and redirections follow. */
  lemma BlockEnds(s: string, p: nat, q: nat, m: nat)
    requires p <= |s| && q == SkipSpace(s, p) && q < |s| && s[q] == '(' && ParseLine(s, q + 1).Ok?
    requires m == ParseLine(s, q + 1).pos && SkipSpace(s, m) == m && ParseExec(s, p).Ok?
    ensures m < |s| && s[m] == ')' && ParseRedirs(s, [], SkipSpace(s, m + 1)).Redirs?
    ensures ParseExec(s, p).pos == ParseRedirs(s, [], SkipSpace(s, m + 1)).pos
  {
    hide SkipSpace, ParseLine, ParseRedirs;
    SkipTwice(s, p);
    SameExec(s, p);
    SymbolAt(s, q);
    SameLine(s, q + 1);
    SeesHere(s, q) by {
      NoSpace(s, q);
    }
    if Sees(s, m, ")") {
      SymbolNext(s, m, ")");
    }
  }

  lemma GroupJoined(s: string, p: nat, q: nat, m: nat, k: nat, e: nat, t: Stage)
    requires t.Group? && p <= q < m < |s| && m + 1 <= k <= |s| && t.lead == s[p..q] && t.close == s[m + 1..k]
    requires s[q] == '(' && s[m] == ')' && Holds(s, q + 1, m, PrintLine(t.line)) && Holds(s, k, e, PrintItems(t.files))
    ensures Holds(s, p, e, PrintStage(t))
  {
    hide Holds, PrintLine, PrintItems;
    var line, items := PrintLine(t.line), PrintItems(t.files);
    HoldsSlice(s, p, q);
    HoldsSlice(s, m + 1, k);
    HoldsChar(s, q, "(");
    HoldsChar(s, m, ")");
    Joined(s, p, q, q + 1, t.lead, "(");
    Joined(s, p, q + 1, m, t.lead + "(", line);
    Joined(s, p, m, m + 1, t.lead + "(" + line, ")");
    Joined(s, p, m + 1, k, t.lead + "(" + line + ")", t.close);
    Joined(s, p, k, e, t.lead + "(" + line + ")" + t.close, items);
  }

  lemma HoldsChar(s: string, q: nat, c: string)
    requires |c| == 1 && q < |s| && s[q] == c[0]
    ensures Holds(s, q, q + 1, c)
  {
  }

  lemma {:induction false} PipelineRead(s: string, p: nat) returns (t: Pipeline)
    requires p <= |s| && ParsePipe(s, p).Ok?
    ensures PipelineOk(t) && Accepted(s, p, ParsePipe(s, p), PrintPipeline(t))
    decreases |s| - p, 2
  {
    hide SkipSpace, Sees, Lex, ParseExec, StageOk, PrintStage, Holds;
    var stage := StageRead(s, p);
    var m := ParseExec(s, p).pos;
    if Sees(s, m, "|") {
      SymbolNext(s, m, "|");
      SameLine(s, m + 1);
      var rest := PipelineRead(s, m + 1);
      t := Bar(stage, rest);
      HoldsChar(s, m, "|");
      Joined(s, p, m, m + 1, PrintStage(stage), "|");
      Joined(s, p, m + 1, ParsePipe(s, p).pos, PrintStage(stage) + "|", PrintPipeline(rest));
    } else {
      t := One(stage);
    }
  }

  /** The '&'s, and the text behind a ';' if there is one. */
  function TailText(backs: seq<string>, rest: seq<Line>): string {
    PrintBacks(backs) + if rest == [] then "" else ";" + PrintLine(rest[0])
  }

  lemma {:induction false} TailRead(s: string, cmd: Cmd, p: nat) returns (backs: seq<string>, rest: seq<Line>)
    requires p <= |s| && SkipSpace(s, p) == p && LineTail(s, cmd, p).Ok?
    ensures BacksOk(backs) && |rest| <= 1 && (rest != [] ==> LineOk(rest[0]))
    ensures Accepted(s, p, LineTail(s, cmd, p), TailText(backs, rest))
    decreases |s| - p, 0
  {
    hide SkipSpace, Sees, Lex, ParseLine, Holds, LineOk, PrintLine;
    var e := LineTail(s, cmd, p).pos;
    if Sees(s, p, "&") {
      SymbolNext(s, p, "&");
      var k := SkipSpace(s, p + 1);
      SkipTwice(s, p + 1);
      var more;
      more, rest := TailRead(s, Back(cmd), k);
      SkippedWhite(s, p + 1);
      backs := [s[p + 1..k]] + more;
      BackJoined(s, p, k, e, more, rest);
    } else if Sees(s, p, ";") {
      SymbolNext(s, p, ";");
      SameLine(s, p + 1);
      var line := LineRead(s, p + 1);
      backs, rest := [], [line];
      HoldsChar(s, p, ";");
      Joined(s, p, p + 1, e, ";", PrintLine(line));
      assert TailText([], [line]) == ";" + PrintLine(line);
    } else {
      backs, rest := [], [];
      Nothing(s, p);
      assert TailText([], []) == "";
    }
  }

  lemma BackJoined(s: string, p: nat, k: nat, e: nat, more: seq<string>, rest: seq<Line>)
    requires p < |s| && s[p] == '&' && p + 1 <= k <= |s| && Holds(s, k, e, TailText(more, rest))
    ensures Holds(s, p, e, TailText([s[p + 1..k]] + more, rest))
  {
    hide Holds, PrintBacks;
    var gap, tail := s[p + 1..k], if rest == [] then "" else ";" + PrintLine(rest[0]);
    HoldsChar(s, p, "&");
    HoldsSlice(s, p + 1, k);
    Joined(s, p, p + 1, k, "&", gap);
    Joined(s, p, k, e, "&" + gap, TailText(more, rest));
    MoreBacks([gap] + more);
    assert ([gap] + more)[1..] == more;
    assert "&" + gap + (PrintBacks(more) + tail) == "&" + gap + PrintBacks(more) + tail;
  }

  lemma {:induction false} LineRead(s: string, p: nat) returns (t: Line)
    requires p <= |s| && ParseLine(s, p).Ok?
    ensures LineOk(t) && Accepted(s, p, ParseLine(s, p), PrintLine(t))
    decreases |s| - p, 3
  {
    hide SkipSpace, ParsePipe, LineTail, PipelineOk, BacksOk, PrintPipeline, PrintBacks, Holds;
    var pipe := PipelineRead(s, p);
    var r := ParsePipe(s, p);
    var backs, rest := TailRead(s, r.cmd, r.pos);
    var e := ParseLine(s, p).pos;
    Joined(s, p, r.pos, e, PrintPipeline(pipe), TailText(backs, rest));
    t := if rest == [] then Job(pipe, backs) else Semi(pipe, backs, rest[0]);
    LineJoined(pipe, backs, rest);
  }

  lemma LineJoined(pipe: Pipeline, backs: seq<string>, rest: seq<Line>)
    requires |rest| <= 1
    ensures PrintPipeline(pipe) + TailText(backs, rest) ==
            PrintLine(if rest == [] then Job(pipe, backs) else Semi(pipe, backs, rest[0]))
  {
    var a, b := PrintPipeline(pipe), PrintBacks(backs);
    if rest == [] {
      assert a + (b + "") == a + b;
    } else {
      assert a + (b + (";" + PrintLine(rest[0]))) == a + b + ";" + PrintLine(rest[0]);
    }
  }

  /**
   Every line that the parser accepts is the text of a line of the grammar, and the command is what
   that stands for.
   */
  lemma AcceptedIsMeant(s: string) returns (t: Line)
    requires ParseCmd(s).Ok?
    ensures LineOk(t) && PrintLine(t) == s && LineMeans(s, ParseCmd(s).cmd, t)
  {
    hide SkipSpace, ParseLine, LineOk, PrintLine, LineMeans;
    t := LineRead(s, 0);
    assert ParseLine(s, 0).pos == |s|;
    assert s[0..|s|] == s;
    var cmd := CommandParses(t);
  }

  /** The parser accepts exactly the texts of the grammar's lines. */
  lemma AcceptsExactly(s: string)
    ensures ParseCmd(s).Ok? <==> exists t: Line :: LineOk(t) && PrintLine(t) == s
  {
    hide SkipSpace, ParseLine, LineOk, PrintLine, LineMeans;
    if ParseCmd(s).Ok? {
      var t := AcceptedIsMeant(s);
      assert LineOk(t) && PrintLine(t) == s;
    }
    if t: Line :| LineOk(t) && PrintLine(t) == s {
      var cmd := CommandParses(t);
    }
  }
}
