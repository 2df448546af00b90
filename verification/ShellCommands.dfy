/** Simple commands: arguments and redirections in any order, with any white space between them. */
module ShellCommands {
  import opened ShellGrammar
  import opened ShellTheorems

  /** gap is the white space behind an item, sep that between an operator and its file. */
  datatype Item =
    | Arg(word: string, gap: string)
    | From(sep: string, word: string, gap: string)
    | To(sep: string, word: string, gap: string)
    | Onto(sep: string, word: string, gap: string)

  /** What an item starts with. */
  function Operator(it: Item): string {
    match it
    case Arg(_, _) => ""
    case From(_, _, _) => "<"
    case To(_, _, _) => ">"
    case Onto(_, _, _) => ">>"
  }

  function Sep(it: Item): string {
    if it.Arg? then "" else it.sep
  }

  function PrintItem(it: Item): string {
    Operator(it) + Sep(it) + it.word + it.gap
  }

  function PrintItems(items: seq<Item>): string {
    if items == [] then "" else PrintItem(items[0]) + PrintItems(items[1..])
  }

  function Args(items: seq<Item>): seq<string> {
    if items == [] then [] else if items[0].Arg? then [items[0].word] + Args(items[1..]) else Args(items[1..])
  }

  function Files(items: seq<Item>): seq<Item> {
    if items == [] then [] else if items[0].Arg? then Files(items[1..]) else [items[0]] + Files(items[1..])
  }

  predicate White(gap: string) {
    forall i | 0 <= i < |gap| :: IsSpace(gap[i])
  }

  predicate ItemOk(it: Item) {
    IsWord(it.word) && White(Sep(it)) && White(it.gap)
  }

  /** Proper words and white space; an argument is set off from the word before it. */
  predicate ItemsOk(items: seq<Item>) {
    items == [] ||
    (ItemOk(items[0]) && (|items| > 1 && items[1].Arg? ==> items[0].gap != "") && ItemsOk(items[1..]))
  }

  /** A redirection opens the item's file: '<' for reading on 0, '>' and '>>' alike to be created and written on 1. */
  ghost predicate Opens(s: string, r: Redirection, it: Item) {
    && Spells(s, r.file, it.word)
    && (if it.From? then r.mode == 0 && r.fd == 0 else r.mode == 0x201 && r.fd == 1)
  }

  ghost predicate AllOpen(s: string, list: seq<Redirection>, items: seq<Item>) {
    |list| == |items| && forall i | 0 <= i < |items| :: Opens(s, list[i], items[i])
  }

  /** Where the word of an item starts and ends, and where the next item starts. */
  function WordStart(p: nat, it: Item): nat {
    p + |Operator(it)| + |Sep(it)|
  }

  function WordStop(p: nat, it: Item): nat {
    WordStart(p, it) + |it.word|
  }

  function ItemEnd(p: nat, it: Item): nat {
    WordStop(p, it) + |it.gap|
  }

  ghost predicate ItemAt(s: string, p: nat, it: Item) {
    && At(s, p, Operator(it)) && At(s, p + |Operator(it)|, Sep(it)) && At(s, WordStart(p, it), it.word)
    && At(s, WordStop(p, it), it.gap)
  }

  ghost predicate Items(s: string, p: nat, e: nat, items: seq<Item>)
    decreases |items|
  {
    if items == [] then p == e <= |s|
    else ItemEnd(p, items[0]) <= e <= |s| && ItemAt(s, p, items[0]) && Items(s, ItemEnd(p, items[0]), e, items[1..])
  }

  lemma {:induction false} ItemsText(s: string, p: nat, items: seq<Item>)
    requires At(s, p, PrintItems(items))
    ensures Items(s, p, p + |PrintItems(items)|, items)
    decreases |items|
  {
    hide At, ItemAt, PrintItem, PrintItems, ItemEnd, Items;
    AtBound(s, p, PrintItems(items));
    if items == [] {
      ItemsNil(s, p);
    } else {
      var e := p + |PrintItems(items)|;
      PrintCons(items);
      AtSplit(s, p, PrintItem(items[0]), PrintItems(items[1..]));
      ItemText(s, p, items[0]);
      ItemsText(s, ItemEnd(p, items[0]), items[1..]);
      ItemsCons(s, p, e, items);
    }
  }

  lemma ItemsNil(s: string, p: nat)
    requires p <= |s|
    ensures PrintItems([]) == "" && Items(s, p, p, [])
  {
  }

  lemma ItemsCons(s: string, p: nat, e: nat, items: seq<Item>)
    requires items != [] && ItemEnd(p, items[0]) <= e <= |s|
    requires ItemAt(s, p, items[0]) && Items(s, ItemEnd(p, items[0]), e, items[1..])
    ensures Items(s, p, e, items)
  {
  }

  lemma PrintCons(items: seq<Item>)
    requires items != []
    ensures PrintItems(items) == PrintItem(items[0]) + PrintItems(items[1..])
  {
  }

  lemma AtBound(s: string, p: nat, text: string)
    requires At(s, p, text)
    ensures p + |text| <= |s|
  {
  }

  lemma ItemText(s: string, p: nat, it: Item)
    requires At(s, p, PrintItem(it))
    ensures ItemAt(s, p, it) && p + |PrintItem(it)| == ItemEnd(p, it)
  {
    AtSplit(s, p, Operator(it) + Sep(it) + it.word, it.gap);
    AtSplit(s, p, Operator(it) + Sep(it), it.word);
    AtSplit(s, p, Operator(it), Sep(it));
  }

  /** A simple command ends at the end of the line, or before one of the symbols that parseexec stops at. */
  ghost predicate Stops(s: string, p: nat) {
    p == |s| || (p < |s| && (s[p] == '|' || s[p] == ')' || s[p] == '&' || s[p] == ';'))
  }

  /** The rest of parseexec from a point where redirections may follow. */
  function Rest(s: string, argv: seq<Span>, list: seq<Redirection>, p: nat): Parsed
    requires p <= |s|
  {
    match ParseRedirs(s, list, p)
    case NoFile => Panic
    case Redirs(list2, p2) => ParseArgs(s, argv, list2, p2)
  }

  lemma {:induction false} SkipsGap(s: string, p: nat, gap: string)
    requires White(gap) && At(s, p, gap) && (p + |gap| < |s| ==> !IsSpace(s[p + |gap|]))
    ensures SkipSpace(s, p) == p + |gap|
    decreases |gap|
  {
    if gap != "" {
      AtChar(s, p, gap, 0);
      assert gap == gap[..1] + gap[1..];
      AtSplit(s, p, gap[..1], gap[1..]);
      SkipsGap(s, p + 1, gap[1..]);
    }
  }

  /** No item starts with white space, and what follows an item never continues its word. */
  lemma ItemStart(s: string, p: nat, e: nat, items: seq<Item>)
    requires Items(s, p, e, items) && Stops(s, e) && ItemsOk(items)
    ensures p <= |s| && SkipSpace(s, p) == p && !Sees(s, p, "(")
    ensures items != [] && !items[0].Arg? ==> p < |s| && (s[p] == '<' || s[p] == '>')
    ensures items == [] || items[0].Arg? ==> !Sees(s, p, "<>")
    ensures items == [] || !items[0].Arg? ==> p < |s| ==> !IsWordChar(s[p])
  {
    if items == [] {
      SeesHere(s, p);
    } else {
      ItemsHead(s, p, e, items);
      HeadStart(s, p, items[0]);
    }
  }

  lemma SeesHere(s: string, p: nat)
    requires p <= |s| && (p < |s| ==> !IsSpace(s[p]))
    ensures SkipSpace(s, p) == p && forall toks: string :: Sees(s, p, toks) <==> p < |s| && s[p] in toks
  {
  }

  lemma HeadStart(s: string, p: nat, it: Item)
    requires ItemOk(it) && ItemAt(s, p, it)
    ensures p <= |s| && SkipSpace(s, p) == p && !Sees(s, p, "(")
    ensures !it.Arg? ==> p < |s| && (s[p] == '<' || s[p] == '>')
    ensures it.Arg? ==> p < |s| && IsWordChar(s[p]) && !Sees(s, p, "<>")
  {
    hide At, SkipSpace, White, Sees;
    if it.Arg? {
      AtArg(s, p, it);
      AtBound(s, p, it.word);
      AtChar(s, p, it.word, 0);
    } else {
      AtBound(s, p, Operator(it));
      AtChar(s, p, Operator(it), 0);
    }
    SeesHere(s, p);
  }

  lemma ItemsHead(s: string, p: nat, e: nat, items: seq<Item>)
    requires Items(s, p, e, items) && ItemsOk(items) && items != []
    ensures ItemOk(items[0]) && ItemAt(s, p, items[0])
  {
  }

  lemma AtArg(s: string, p: nat, it: Item)
    requires it.Arg? && ItemAt(s, p, it)
    ensures At(s, p, it.word)
  {
  }

  /** The item it stands at p, and behind its word comes its gap and then no white space. */
  ghost predicate Head(s: string, p: nat, it: Item) {
    && ItemOk(it) && ItemAt(s, p, it) && ItemEnd(p, it) <= |s|
    && (WordStop(p, it) < |s| ==> !IsWordChar(s[WordStop(p, it)])) && SkipSpace(s, WordStop(p, it)) == ItemEnd(p, it)
  }

  lemma Unpack(s: string, p: nat, e: nat, items: seq<Item>)
    requires Items(s, p, e, items) && Stops(s, e) && ItemsOk(items) && items != []
    ensures Head(s, p, items[0]) && Items(s, ItemEnd(p, items[0]), e, items[1..]) && ItemsOk(items[1..])
  {
    hide Items, ItemsOk, SkipSpace, Sees, Operator, Sep, Stops, At, White, IsWord;
    var it, q := items[0], ItemEnd(p, items[0]);
    ItemsSplit(s, p, e, items);
    ItemStart(s, q, e, items[1..]);
    GapBehind(s, WordStop(p, it), it.gap, items[1..]);
  }

  lemma ItemsSplit(s: string, p: nat, e: nat, items: seq<Item>)
    requires Items(s, p, e, items) && ItemsOk(items) && items != []
    ensures Items(s, ItemEnd(p, items[0]), e, items[1..]) && ItemsOk(items[1..]) && ItemEnd(p, items[0]) <= |s|
    ensures ItemOk(items[0]) && ItemAt(s, p, items[0]) && (|items| > 1 && items[1].Arg? ==> items[0].gap != "")
  {
  }

  lemma GapBehind(s: string, n: nat, gap: string, rest: seq<Item>)
    requires White(gap) && At(s, n, gap) && n + |gap| <= |s| && SkipSpace(s, n + |gap|) == n + |gap|
    requires rest == [] || !rest[0].Arg? ==> n + |gap| < |s| ==> !IsWordChar(s[n + |gap|])
    requires rest != [] && rest[0].Arg? ==> gap != ""
    ensures SkipSpace(s, n) == n + |gap| && (n < |s| ==> !IsWordChar(s[n]))
  {
    SkipsGap(s, n, gap);
    if gap != "" {
      AtChar(s, n, gap, 0);
    }
  }

  lemma WordStep(s: string, p: nat, it: Item, argv: seq<Span>, list: seq<Redirection>)
    requires Head(s, p, it) && it.Arg? && |argv| + 1 < MAXARGS
    requires Rest(s, argv + [Span(p, WordStop(p, it))], list, ItemEnd(p, it)).Ok?
    ensures Rest(s, argv, list, p) == Rest(s, argv + [Span(p, WordStop(p, it))], list, ItemEnd(p, it))
    ensures Spells(s, Span(p, WordStop(p, it)), it.word)
  {
    hide At, White, SkipSpace, Sees, Lex, ParseArgs;
    var n, q := WordStop(p, it), ItemEnd(p, it);
    AtArg(s, p, it);
    WordLexed(s, p, it.word);
    SeesHere(s, p);
    var r := ParseRedirs(s, list, q);
    assert !Sees(s, p, "<>") && !Sees(s, p, "|)&;");
    NoRedirection(s, list, p);
    ArgsWord(s, argv, list, p, Span(p, n), q, r.list, r.pos);
  }

  lemma NoRedirection(s: string, list: seq<Redirection>, p: nat)
    requires p <= |s| && !Sees(s, p, "<>") && SkipSpace(s, p) == p
    ensures ParseRedirs(s, list, p) == Redirs(list, p)
  {
  }

  lemma FileStep(s: string, p: nat, it: Item, list: seq<Redirection>) returns (r: Redirection)
    requires Head(s, p, it) && !it.Arg?
    ensures p <= |s| && Opens(s, r, it) && ParseRedirs(s, list, p) == ParseRedirs(s, list + [r], ItemEnd(p, it))
  {
    hide At, SkipSpace, Lex, ParseRedirs, White, Sees;
    var m, n := WordStart(p, it), WordStop(p, it);
    WordLexed(s, m, it.word);
    var l := OperatorLexed(s, p, it);
    r := RedirectionOf(l.tok, Span(m, n));
    RedirsFile(s, list, p, l, Lexeme(Word, m, n, ItemEnd(p, it)));
  }

  lemma OperatorLexed(s: string, p: nat, it: Item) returns (l: Lexeme)
    requires !it.Arg? && ItemOk(it) && ItemAt(s, p, it)
    ensures p < |s| && l == Lex(s, p) && l.next == WordStart(p, it) && Sees(s, p, "<>")
    ensures l.tok == if it.From? then Symbol('<') else if it.To? then Symbol('>') else Append
  {
    hide At, White, SkipSpace, Sees, Lex;
    OperatorThere(s, p, it);
    SepBehind(s, p, it);
    SeesHere(s, p);
    LexOperator(s, p, if it.Onto? then 2 else 1);
    l := Lex(s, p);
  }

  lemma OperatorThere(s: string, p: nat, it: Item)
    requires !it.Arg? && At(s, p, Operator(it))
    ensures p + |Operator(it)| <= |s| && s[p] == (if it.From? then '<' else '>') && (it.Onto? ==> s[p + 1] == '>')
  {
    AtChar(s, p, Operator(it), 0);
    if it.Onto? {
      AtChar(s, p, Operator(it), 1);
    }
  }

  /** Behind the operator comes its white space, and no second '>'. */
  lemma SepBehind(s: string, p: nat, it: Item)
    requires ItemOk(it) && ItemAt(s, p, it)
    ensures var k := p + |Operator(it)|; k < |s| && SkipSpace(s, k) == WordStart(p, it) && s[k] != '>'
  {
    hide At, White, SkipSpace;
    var k := p + |Operator(it)|;
    AtBound(s, WordStart(p, it), it.word);
    AtChar(s, WordStart(p, it), it.word, 0);
    SkipsGap(s, k, Sep(it));
    if Sep(it) != "" {
      AtChar(s, k, Sep(it), 0);
      FirstWhite(Sep(it));
    }
  }

  lemma FirstWhite(gap: string)
    requires White(gap) && gap != ""
    ensures IsSpace(gap[0])
  {
  }

  lemma LexOperator(s: string, p: nat, n: nat)
    requires 1 <= n <= 2 && p + n < |s| && (s[p] == '<' || s[p] == '>') && s[p + n] != '>'
    requires n == 2 ==> s[p] == s[p + 1] == '>'
    ensures var l := Lex(s, p); l.tok == (if n == 2 then Append else Symbol(s[p])) && l.next == SkipSpace(s, p + n)
  {
  }

  lemma Prepend(s: string, r: Redirection, list: seq<Redirection>, it: Item, items: seq<Item>)
    requires Opens(s, r, it) && AllOpen(s, list, items)
    ensures AllOpen(s, [r] + list, [it] + items)
  {
  }

  lemma RestStops(s: string, argv: seq<Span>, list: seq<Redirection>, p: nat)
    requires Stops(s, p)
    ensures Rest(s, argv, list, p) == Ok(Wrap(Exec(argv), list), p)
  {
    assert !Sees(s, p, "<>");
  }

  /** From p on, with argv and list so far, the line is the command with argv2 and list2, up to e. */
  ghost predicate Yields(s: string, argv: seq<Span>, list: seq<Redirection>, p: nat, argv2: seq<Span>,
                         list2: seq<Redirection>, e: nat)
  {
    p <= |s| && Rest(s, argv, list, p) == Ok(Wrap(Exec(argv2), list2), e)
  }

  lemma WordCase(s: string, p: nat, n: nat, it: Item, argv: seq<Span>, list: seq<Redirection>, spans: seq<Span>,
                 list2: seq<Redirection>, e: nat)
    requires Head(s, p, it) && it.Arg? && |argv| + 1 < MAXARGS && n == WordStop(p, it)
    requires Yields(s, argv + [Span(p, n)], list, ItemEnd(p, it), argv + [Span(p, n)] + spans, list2, e)
    ensures Spells(s, Span(p, n), it.word) && Yields(s, argv, list, p, argv + ([Span(p, n)] + spans), list2, e)
  {
    WordStep(s, p, it, argv, list);
    Regroup(argv, Span(p, n), spans);
  }

  lemma FileCase(s: string, p: nat, p1: nat, argv: seq<Span>, list: seq<Redirection>, r: Redirection, spans: seq<Span>,
                 more: seq<Redirection>, e: nat)
    requires p <= |s| && p1 <= |s| && ParseRedirs(s, list, p) == ParseRedirs(s, list + [r], p1)
    requires Yields(s, argv, list + [r], p1, argv + spans, list + [r] + more, e)
    ensures Yields(s, argv, list, p, argv + spans, list + ([r] + more), e)
  {
    SameRest(s, argv, list, p, list + [r], p1);
    Regroup(list, r, more);
  }

  /** Whatever the order, the arguments are collected in order and the redirections wrap them in order. */
  lemma {:induction false} ItemsParse(s: string, p: nat, e: nat, items: seq<Item>, argv: seq<Span>,
                                      list: seq<Redirection>)
    returns (spans: seq<Span>, more: seq<Redirection>)
    requires Items(s, p, e, items) && Stops(s, e) && ItemsOk(items) && |argv| + |Args(items)| < MAXARGS
    ensures Yields(s, argv, list, p, argv + spans, list + more, e)
    ensures Spelled(s, spans, Args(items)) && AllOpen(s, more, Files(items))
    decreases |items|, 1
  {
    if items == [] {
      spans, more := [], [];
      assert argv + spans == argv && list + more == list;
      RestStops(s, argv, list, p);
    } else {
      Unpack(s, p, e, items);
      if items[0].Arg? {
        spans, more := ArgFirst(s, p, e, items[0], items[1..], argv, list);
      } else {
        spans, more := FileFirst(s, p, e, items[0], items[1..], argv, list);
      }
    }
  }

  lemma {:induction false} ArgFirst(s: string, p: nat, e: nat, it: Item, rest: seq<Item>, argv: seq<Span>,
                                    list: seq<Redirection>)
    returns (spans: seq<Span>, more: seq<Redirection>)
    requires Head(s, p, it) && Items(s, ItemEnd(p, it), e, rest) && Stops(s, e) && ItemsOk(rest)
    requires |argv| + 1 + |Args(rest)| < MAXARGS && it.Arg?
    ensures Yields(s, argv, list, p, argv + spans, list + more, e)
    ensures Spelled(s, spans, [it.word] + Args(rest)) && AllOpen(s, more, Files(rest))
    decreases |rest|, 2
  {
    var n := WordStop(p, it);
    var spans1, more1 := ItemsParse(s, ItemEnd(p, it), e, rest, argv + [Span(p, n)], list);
    WordCase(s, p, n, it, argv, list, spans1, list + more1, e);
    spans, more := [Span(p, n)] + spans1, more1;
    SpelledCons(s, Span(p, n), spans1, it.word, Args(rest));
  }

  lemma {:induction false} FileFirst(s: string, p: nat, e: nat, it: Item, rest: seq<Item>, argv: seq<Span>,
                                     list: seq<Redirection>)
    returns (spans: seq<Span>, more: seq<Redirection>)
    requires Head(s, p, it) && Items(s, ItemEnd(p, it), e, rest) && Stops(s, e) && ItemsOk(rest)
    requires |argv| + |Args(rest)| < MAXARGS && !it.Arg?
    ensures Yields(s, argv, list, p, argv + spans, list + more, e)
    ensures Spelled(s, spans, Args(rest)) && AllOpen(s, more, [it] + Files(rest))
    decreases |rest|, 2
  {
    var r := FileStep(s, p, it, list);
    var spans1, more1 := ItemsParse(s, ItemEnd(p, it), e, rest, argv, list + [r]);
    FileCase(s, p, ItemEnd(p, it), argv, list, r, spans1, more1, e);
    spans, more := spans1, [r] + more1;
    Prepend(s, r, more1, it, Files(rest));
  }

  lemma SameRest(s: string, argv: seq<Span>, list: seq<Redirection>, p: nat, list2: seq<Redirection>, p2: nat)
    requires p <= |s| && p2 <= |s| && ParseRedirs(s, list, p) == ParseRedirs(s, list2, p2)
    ensures Rest(s, argv, list, p) == Rest(s, argv, list2, p2)
  {
  }

  /**
   The command that args and files stand for, from the outside in: the last file's redirection is
   outermost, and the arguments are in the middle.
   */
  ghost predicate SimpleMeans(s: string, cmd: Cmd, args: seq<string>, files: seq<Item>)
    decreases |files|
  {
    if files == [] then cmd.Exec? && Spelled(s, cmd.argv, args)
    else
      var n := |files| - 1;
      cmd.Redir? && Opens(s, cmd.to, files[n]) && SimpleMeans(s, cmd.cmd, args, files[..n])
  }

  lemma {:induction false} WrapMeans(s: string, spans: seq<Span>, list: seq<Redirection>, args: seq<string>,
                                     files: seq<Item>)
    requires Spelled(s, spans, args) && AllOpen(s, list, files)
    ensures SimpleMeans(s, Wrap(Exec(spans), list), args, files)
    decreases |files|
  {
    if files != [] {
      var n := |files| - 1;
      WrapMeans(s, spans, list[..n], args, files[..n]);
    }
  }

  /** A simple command, inside any line. */
  lemma SimpleParses(s: string, p: nat, items: seq<Item>) returns (cmd: Cmd)
    requires ItemsOk(items) && |Args(items)| < MAXARGS && At(s, p, PrintItems(items))
    requires Stops(s, p + |PrintItems(items)|)
    ensures p <= |s| && SkipSpace(s, p) == p && ParseExec(s, p) == Ok(cmd, p + |PrintItems(items)|)
    ensures SimpleMeans(s, cmd, Args(items), Files(items))
  {
    hide Items, PrintItems, Args, Files, Spelled, AllOpen, SkipSpace, At, ItemsOk, ParseRedirs, ParseArgs, SimpleMeans;
    var e := p + |PrintItems(items)|;
    ItemsText(s, p, items);
    ItemStart(s, p, e, items);
    var spans, list := ItemsParse(s, p, e, items, [], []);
    assert [] + spans == spans && [] + list == list;
    cmd := Wrap(Exec(spans), list);
    WrapMeans(s, spans, list, Args(items), Files(items));
  }

  /** The round trip for simple commands, as a whole line. */
  lemma SimpleCommandParses(items: seq<Item>) returns (cmd: Cmd)
    requires ItemsOk(items) && |Args(items)| < MAXARGS
    ensures var s := PrintItems(items);
            ParseCmd(s) == Ok(cmd, |s|) && SimpleMeans(s, cmd, Args(items), Files(items))
  {
    hide PrintItems, Args, Files, ItemsOk, SimpleMeans, ParseExec;
    var s := PrintItems(items);
    assert s[0..0 + |s|] == s;
    cmd := SimpleParses(s, 0, items);
    WholeLine(s, 0, cmd, |s|);
  }

  /** The tenth argument is refused, however the line goes on. */
  lemma TooManyArgs(s: string, argv: seq<Span>, list: seq<Redirection>, p: nat, w: string)
    requires IsWord(w) && At(s, p, w) && (p + |w| < |s| ==> !IsWordChar(s[p + |w|])) && |argv| == 9
    ensures ParseArgs(s, argv, list, p) == Panic
  {
    WordLexed(s, p, w);
    assert !Sees(s, p, "|)&;");
  }
}
