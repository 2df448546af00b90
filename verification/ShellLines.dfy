/**
 Whole command lines as the grammar of sh.c writes them, without extra parentheses: pipelines of
 simple commands and groups, in the background or not, one after the other. Parsing the text of
 a line gives the command the line stands for: '|' binds tighter than '&' and ';', and both
 chains group to the right.
 */
module ShellLines {
  import opened ShellGrammar
  import opened ShellTheorems
  import opened ShellCommands

  /** lead is the white space in front; close that behind the parenthesis of a group. */
  datatype Stage = Simple(lead: string, items: seq<Item>) | Group(lead: string, line: Line, close: string,
                                                                  files: seq<Item>)

  datatype Pipeline = One(stage: Stage) | Bar(stage: Stage, rest: Pipeline)

  /** backs has an element for each '&' behind the pipeline: the white space that follows it. */
  datatype Line = Job(pipe: Pipeline, backs: seq<string>) | Semi(pipe: Pipeline, backs: seq<string>, rest: Line)

  // ---- The text ----

  function PrintStage(t: Stage): string {
    match t
    case Simple(lead, items) => lead + PrintItems(items)
    case Group(lead, line, close, files) => lead + "(" + PrintLine(line) + ")" + close + PrintItems(files)
  }

  function PrintPipeline(t: Pipeline): string {
    match t
    case One(stage) => PrintStage(stage)
    case Bar(stage, rest) => PrintStage(stage) + "|" + PrintPipeline(rest)
  }

  function PrintBacks(backs: seq<string>): string {
    if backs == [] then "" else "&" + backs[0] + PrintBacks(backs[1..])
  }

  function PrintLine(t: Line): string {
    match t
    case Job(pipe, backs) => PrintPipeline(pipe) + PrintBacks(backs)
    case Semi(pipe, backs, rest) => PrintPipeline(pipe) + PrintBacks(backs) + ";" + PrintLine(rest)
  }

  // ---- Lines the shell can hold ----

  predicate StageOk(t: Stage) {
    match t
    case Simple(lead, items) => White(lead) && ItemsOk(items) && |Args(items)| < 10
    case Group(lead, line, close, files) =>
      White(lead) && LineOk(line) && White(close) && ItemsOk(files) && Args(files) == []
  }

  predicate PipelineOk(t: Pipeline) {
    match t
    case One(stage) => StageOk(stage)
    case Bar(stage, rest) => StageOk(stage) && PipelineOk(rest)
  }

  predicate BacksOk(backs: seq<string>) {
    forall i | 0 <= i < |backs| :: White(backs[i])
  }

  predicate LineOk(t: Line) {
    PipelineOk(t.pipe) && BacksOk(t.backs) && (t.Semi? ==> LineOk(t.rest))
  }

  // ---- What they stand for ----

  ghost predicate StageMeans(s: string, cmd: Cmd, t: Stage)
    decreases t, 1
  {
    match t
    case Simple(_, items) => SimpleMeans(s, cmd, Args(items), Files(items))
    case Group(_, line, _, files) => GroupMeans(s, cmd, line, files)
  }

  ghost predicate GroupMeans(s: string, cmd: Cmd, line: Line, files: seq<Item>)
    decreases line, 2, |files|
  {
    if files == [] then LineMeans(s, cmd, line)
    else
      var n := |files| - 1;
      cmd.Redir? && Opens(s, cmd.to, files[n]) && GroupMeans(s, cmd.cmd, line, files[..n])
  }

  /** A chain of '|' groups to the right. */
  ghost predicate PipelineMeans(s: string, cmd: Cmd, t: Pipeline)
    decreases t, 2
  {
    match t
    case One(stage) => StageMeans(s, cmd, stage)
    case Bar(stage, rest) => cmd.Pipe? && StageMeans(s, cmd.left, stage) && PipelineMeans(s, cmd.right, rest)
  }

  /** n times '&' behind the pipeline: in the background of the background. */
  ghost predicate BackMeans(s: string, cmd: Cmd, t: Pipeline, n: nat)
    decreases t, 3, n
  {
    if n == 0 then PipelineMeans(s, cmd, t) else cmd.Back? && BackMeans(s, cmd.cmd, t, n - 1)
  }

  /** A chain of ';' groups to the right; '|' and '&' bind tighter. */
  ghost predicate LineMeans(s: string, cmd: Cmd, t: Line)
    decreases t, 1
  {
    match t
    case Job(pipe, backs) => BackMeans(s, cmd, pipe, |backs|)
    case Semi(pipe, backs, rest) =>
      cmd.List? && BackMeans(s, cmd.left, pipe, |backs|) && LineMeans(s, cmd.right, rest)
  }

  // ---- Single steps of the parser ----

  lemma CharHere(s: string, p: nat, c: string)
    requires |c| == 1 && At(s, p, c)
    ensures p < |s| && s[p] == c[0]
  {
    AtChar(s, p, c, 0);
  }

  lemma BlockAt(s: string, q: nat, cmd: Cmd, m: nat)
    requires q < |s| && s[q] == '(' && ParseLine(s, q + 1) == Ok(cmd, m) && m < |s| && s[m] == ')'
    ensures ParseExec(s, q) == Redirected(cmd, ParseRedirs(s, [], SkipSpace(s, m + 1)))
  {
    hide ParseLine, ParseRedirs;
    SymbolAt(s, q);
    SymbolAt(s, m);
    SameLine(s, q + 1);
    SeesHere(s, q);
    SeesHere(s, m);
    assert ParseBlock(s, q) == Redirected(cmd, ParseRedirs(s, [], SkipSpace(s, m + 1)));
  }

  lemma PipeAt(s: string, p: nat, left: Cmd, m: nat, right: Cmd, e: nat)
    requires p <= |s| && ParseExec(s, p) == Ok(left, m) && m < |s| && s[m] == '|' && ParsePipe(s, m + 1) == Ok(right, e)
    ensures ParsePipe(s, p) == Ok(Pipe(left, right), e)
  {
    hide ParseExec, SkipSpace, Lex;
    SymbolAt(s, m);
    SameLine(s, m + 1);
    SeesHere(s, m);
    assert PipeTail(s, left, m) == Ok(Pipe(left, right), e);
  }

  lemma PipeEnds(s: string, p: nat, cmd: Cmd, e: nat)
    requires p <= |s| && ParseExec(s, p) == Ok(cmd, e) && Stops(s, e) && (e < |s| ==> s[e] != '|')
    ensures ParsePipe(s, p) == Ok(cmd, e)
  {
    hide ParseExec;
    SeesHere(s, e);
  }

  lemma BackAt(s: string, cmd: Cmd, p: nat)
    requires p < |s| && s[p] == '&'
    ensures LineTail(s, cmd, p) == LineTail(s, Back(cmd), SkipSpace(s, p + 1))
  {
    SymbolAt(s, p);
    SeesHere(s, p);
  }

  lemma SemiAt(s: string, cmd: Cmd, p: nat, right: Cmd, e: nat)
    requires p < |s| && s[p] == ';' && ParseLine(s, p + 1) == Ok(right, e)
    ensures LineTail(s, cmd, p) == Ok(List(cmd, right), e)
  {
    hide ParseLine;
    SymbolAt(s, p);
    SameLine(s, p + 1);
    SeesHere(s, p);
  }

  // ---- Simple commands and groups ----

  lemma LeadParses(s: string, p: nat, lead: string)
    requires White(lead) && At(s, p, lead) && p + |lead| <= |s| && SkipSpace(s, p + |lead|) == p + |lead|
    ensures p <= |s| && ParseExec(s, p) == ParseExec(s, p + |lead|)
  {
    hide ParseExec;
    SkipsGap(s, p, lead);
    SameExec(s, p);
  }

  /** The redirections behind a group. */
  lemma {:induction false} FilesParse(s: string, p: nat, e: nat, files: seq<Item>, list: seq<Redirection>)
    returns (more: seq<Redirection>)
    requires Items(s, p, e, files) && Stops(s, e) && ItemsOk(files) && Args(files) == []
    ensures p <= |s| && ParseRedirs(s, list, p) == Redirs(list + more, e) && AllOpen(s, more, files)
    decreases |files|
  {
    hide ParseRedirs, Items, ItemsOk, Stops, Opens, Head, ItemEnd, AllOpen, Args;
    if files == [] {
      more := [];
      NoFiles(s, p, e, list);
    } else {
      FilesOnly(files);
      Unpack(s, p, e, files);
      var r := FileStep(s, p, files[0], list);
      var rest := FilesParse(s, ItemEnd(p, files[0]), e, files[1..], list + [r]);
      more := [r] + rest;
      Regroup(list, r, rest);
      Prepend(s, r, rest, files[0], files[1..]);
      assert [files[0]] + files[1..] == files;
    }
  }

  lemma NoFiles(s: string, p: nat, e: nat, list: seq<Redirection>)
    requires Items(s, p, e, []) && Stops(s, e)
    ensures p <= |s| && ParseRedirs(s, list, p) == Redirs(list + [], e) && AllOpen(s, [], [])
  {
    assert list + [] == list;
    SeesHere(s, p);
    NoRedirection(s, list, p);
  }

  lemma FilesOnly(files: seq<Item>)
    requires files != [] && Args(files) == []
    ensures !files[0].Arg? && Args(files[1..]) == []
  {
  }

  lemma {:induction false} WrapGroup(s: string, cmd: Cmd, list: seq<Redirection>, line: Line, files: seq<Item>)
    requires LineMeans(s, cmd, line) && AllOpen(s, list, files)
    ensures GroupMeans(s, Wrap(cmd, list), line, files)
    decreases |files|
  {
    if files != [] {
      var n := |files| - 1;
      WrapGroup(s, cmd, list[..n], line, files[..n]);
    }
  }

  /** Where the parts of a group are. */
  ghost predicate GroupAt(s: string, p: nat, m: nat, e: nat, t: Stage)
    requires t.Group?
  {
    var q := p + |t.lead|;
    && q < m < e + 1 <= |s| + 1 && At(s, p, t.lead) && s[q] == '(' && At(s, q + 1, PrintLine(t.line))
    && m == q + 1 + |PrintLine(t.line)| < |s| && s[m] == ')' && At(s, m + 1, t.close)
    && At(s, m + 1 + |t.close|, PrintItems(t.files)) && e == m + 1 + |t.close| + |PrintItems(t.files)|
  }

  lemma GroupText(s: string, p: nat, t: Stage) returns (m: nat)
    requires t.Group? && At(s, p, PrintStage(t))
    ensures GroupAt(s, p, m, p + |PrintStage(t)|, t)
  {
    hide At, PrintLine, PrintItems;
    var line, items, q := PrintLine(t.line), PrintItems(t.files), p + |t.lead|;
    m := q + 1 + |line|;
    AtBound(s, p, PrintStage(t));
    AtSplit(s, p, t.lead + "(" + line + ")" + t.close, items);
    AtSplit(s, p, t.lead + "(" + line + ")", t.close);
    AtSplit(s, p, t.lead + "(" + line, ")");
    AtSplit(s, p, t.lead + "(", line);
    AtSplit(s, p, t.lead, "(");
    CharHere(s, q, "(");
    CharHere(s, m, ")");
  }

  lemma GroupFiles(s: string, m: nat, e: nat, t: Stage) returns (more: seq<Redirection>)
    requires t.Group? && StageOk(t) && m < |s| && At(s, m + 1, t.close) && Stops(s, e)
    requires At(s, m + 1 + |t.close|, PrintItems(t.files)) && e == m + 1 + |t.close| + |PrintItems(t.files)|
    ensures ParseRedirs(s, [], SkipSpace(s, m + 1)) == Redirs(more, e) && AllOpen(s, more, t.files)
  {
    hide At, PrintItems, ItemsOk, Args, Stops, SkipSpace, White, Items, ParseRedirs;
    var k := m + 1 + |t.close|;
    ItemsText(s, k, t.files);
    ItemStart(s, k, e, t.files);
    NoSpace(s, k);
    SkipsGap(s, m + 1, t.close);
    more := FilesParse(s, k, e, t.files, []);
    assert [] + more == more;
  }

  lemma NoSpace(s: string, p: nat)
    requires p <= |s| && SkipSpace(s, p) == p
    ensures p < |s| ==> !IsSpace(s[p])
  {
  }

  // ---- The theorem ----

  /** One stage of a pipeline, inside any line. */
  lemma {:induction false} StageParses(s: string, p: nat, t: Stage) returns (cmd: Cmd)
    requires StageOk(t) && At(s, p, PrintStage(t)) && Stops(s, p + |PrintStage(t)|)
    ensures p <= |s| && ParseExec(s, p) == Ok(cmd, p + |PrintStage(t)|) && StageMeans(s, cmd, t)
    decreases t, 1
  {
    hide At, PrintItems, ItemsOk, Args, Files, Stops, SkipSpace, White, ParseExec, ParseRedirs, ParseLine, PrintLine;
    hide SimpleMeans, LineMeans, LineOk, GroupMeans, AllOpen;
    var q, e := p + |t.lead|, p + |PrintStage(t)|;
    match t
    case Simple(lead, items) =>
      AtSplit(s, p, lead, PrintItems(items));
      cmd := SimpleParses(s, q, items);
      LeadParses(s, p, lead);
    case Group(lead, line, close, files) =>
      var m := GroupText(s, p, t);
      var inner := LineParses(s, q + 1, line);
      BlockAt(s, q, inner, m);
      var more := GroupFiles(s, m, e, t);
      cmd := Wrap(inner, more);
      WrapGroup(s, inner, more, line, files);
      SeesHere(s, q);
      LeadParses(s, p, lead);
  }

  lemma {:induction false} PipelineParses(s: string, p: nat, t: Pipeline) returns (cmd: Cmd)
    requires PipelineOk(t) && At(s, p, PrintPipeline(t))
    requires var e := p + |PrintPipeline(t)|; Stops(s, e) && (e < |s| ==> s[e] != '|')
    ensures p <= |s| && ParsePipe(s, p) == Ok(cmd, p + |PrintPipeline(t)|) && PipelineMeans(s, cmd, t)
    decreases t, 2
  {
    hide At, PrintStage, StageOk, ParseExec, ParsePipe, StageMeans;
    match t
    case One(stage) =>
      cmd := StageParses(s, p, stage);
      PipeEnds(s, p, cmd, p + |PrintPipeline(t)|);
    case Bar(stage, rest) =>
      var m := p + |PrintStage(stage)|;
      TwoBlocksText(s, p, PrintStage(stage), "|", PrintPipeline(rest));
      var left := StageParses(s, p, stage);
      var right := PipelineParses(s, m + 1, rest);
      PipeAt(s, p, left, m, right, p + |PrintPipeline(t)|);
      cmd := Pipe(left, right);
  }

  function Backs(cmd: Cmd, n: nat): Cmd {
    if n == 0 then cmd else Back(Backs(cmd, n - 1))
  }

  lemma {:induction false} BacksMean(s: string, cmd: Cmd, t: Pipeline, n: nat)
    requires PipelineMeans(s, cmd, t)
    ensures BackMeans(s, Backs(cmd, n), t, n)
    decreases n
  {
    if n > 0 {
      BacksMean(s, cmd, t, n - 1);
    }
  }

  /** Any number of '&', each with white space behind it. */
  lemma {:induction false} BacksParse(s: string, p: nat, cmd: Cmd, n: nat, backs: seq<string>)
    requires BacksOk(backs) && At(s, p, PrintBacks(backs))
    requires var e := p + |PrintBacks(backs)|; e < |s| ==> !IsSpace(s[e])
    ensures p + |PrintBacks(backs)| <= |s|
    ensures LineTail(s, Backs(cmd, n), p) == LineTail(s, Backs(cmd, n + |backs|), p + |PrintBacks(backs)|)
    decreases |backs|
  {
    hide At, LineTail, White, SkipSpace, PrintBacks, Backs;
    AtBound(s, p, PrintBacks(backs));
    if backs == [] {
      NoBacks();
    } else {
      var gap, rest := backs[0], PrintBacks(backs[1..]);
      MoreBacks(backs);
      AtSplit(s, p, "&" + gap, rest);
      AtSplit(s, p, "&", gap);
      CharHere(s, p, "&");
      BackFollows(s, p + 1 + |gap|, backs[1..]);
      OneMore(cmd, n);
      SkipsGap(s, p + 1, gap);
      BackAt(s, Backs(cmd, n), p);
      BacksParse(s, p + 1 + |gap|, cmd, n + 1, backs[1..]);
    }
  }

  lemma BackFollows(s: string, p: nat, backs: seq<string>)
    requires At(s, p, PrintBacks(backs))
    requires var e := p + |PrintBacks(backs)|; e < |s| ==> !IsSpace(s[e])
    ensures p < |s| ==> !IsSpace(s[p])
    ensures backs != [] ==> p < |s| && s[p] == '&'
  {
    if backs != [] {
      AtChar(s, p, PrintBacks(backs), 0);
    }
  }

  /** A pipeline and the '&'s behind it, up to the end of the line, ')' or ';'. */
  lemma {:induction false} JobParses(s: string, p: nat, pipe: Pipeline, backs: seq<string>) returns (cmd: Cmd)
    requires PipelineOk(pipe) && BacksOk(backs) && At(s, p, PrintPipeline(pipe) + PrintBacks(backs))
    requires var e := p + |PrintPipeline(pipe)| + |PrintBacks(backs)|;
             Stops(s, e) && (e < |s| ==> s[e] != '|' && s[e] != '&')
    ensures p <= |s| && BackMeans(s, cmd, pipe, |backs|)
    ensures p + |PrintPipeline(pipe)| + |PrintBacks(backs)| <= |s|
    ensures ParseLine(s, p) == LineTail(s, cmd, p + |PrintPipeline(pipe)| + |PrintBacks(backs)|)
    decreases pipe, 3
  {
    hide At, PrintPipeline, PipelineOk, PrintBacks, BacksOk, ParsePipe, LineTail, PipelineMeans;
    var m := p + |PrintPipeline(pipe)|;
    AtSplit(s, p, PrintPipeline(pipe), PrintBacks(backs));
    BackFollows(s, m, backs);
    assert Stops(s, m) && (m < |s| ==> s[m] != '|') by {
      if backs == [] {
        NoBacks();
      }
    }
    var core := PipelineParses(s, p, pipe);
    BacksParse(s, m, core, 0, backs);
    cmd := Backs(core, |backs|);
    BacksMean(s, core, pipe, |backs|);
  }

  lemma NoBacks()
    ensures PrintBacks([]) == ""
  {
  }

  lemma MoreBacks(backs: seq<string>)
    requires backs != []
    ensures PrintBacks(backs) == "&" + backs[0] + PrintBacks(backs[1..])
    ensures |PrintBacks(backs)| == 1 + |backs[0]| + |PrintBacks(backs[1..])|
  {
  }

  lemma OneMore(cmd: Cmd, n: nat)
    ensures Backs(cmd, n + 1) == Back(Backs(cmd, n))
  {
  }

  /** A line, inside any other: it stops at the end or before the ')' of a group. */
  lemma {:induction false} LineParses(s: string, p: nat, t: Line) returns (cmd: Cmd)
    requires LineOk(t) && At(s, p, PrintLine(t)) && Ends(s, p + |PrintLine(t)|)
    ensures p <= |s| && ParseLine(s, p) == Ok(cmd, p + |PrintLine(t)|) && LineMeans(s, cmd, t)
    decreases t, 1
  {
    hide At, PrintPipeline, PrintBacks, PipelineOk, BacksOk, ParseLine, LineTail, BackMeans;
    var m := p + |PrintPipeline(t.pipe)| + |PrintBacks(t.backs)|;
    match t
    case Job(pipe, backs) =>
      cmd := JobParses(s, p, pipe, backs);
      TailsStop(s, cmd, m);
    case Semi(pipe, backs, rest) =>
      TwoBlocksText(s, p, PrintPipeline(pipe) + PrintBacks(backs), ";", PrintLine(rest));
      var left := JobParses(s, p, pipe, backs);
      var right := LineParses(s, m + 1, rest);
      SemiAt(s, left, m, right, p + |PrintLine(t)|);
      cmd := List(left, right);
  }

  /** Parsing the text of any line of the grammar returns what it stands for, all of it consumed. */
  lemma CommandParses(t: Line) returns (cmd: Cmd)
    requires LineOk(t)
    ensures ParseCmd(PrintLine(t)) == Ok(cmd, |PrintLine(t)|) && LineMeans(PrintLine(t), cmd, t)
  {
    hide LineOk, PrintLine, LineMeans, ParseLine;
    var s := PrintLine(t);
    assert s[0..0 + |s|] == s;
    cmd := LineParses(s, 0, t);
  }

  // ---- Two and three simple commands ----

  ghost predicate Proper(items: seq<Item>) {
    ItemsOk(items) && |Args(items)| < MAXARGS
  }

  ghost predicate Runs(s: string, cmd: Cmd, items: seq<Item>) {
    SimpleMeans(s, cmd, Args(items), Files(items))
  }

  function Alone(items: seq<Item>): Pipeline {
    One(Simple("", items))
  }

  lemma AlonePrints(items: seq<Item>)
    ensures PrintPipeline(Alone(items)) == PrintItems(items) && PrintLine(Job(Alone(items), [])) == PrintItems(items)
    ensures Proper(items) ==> PipelineOk(Alone(items)) && LineOk(Job(Alone(items), []))
  {
    assert "" + PrintItems(items) == PrintItems(items);
    assert PrintItems(items) + "" == PrintItems(items);
    assert PrintStage(Simple("", items)) == PrintItems(items);
    assert Proper(items) ==> StageOk(Simple("", items));
  }

  lemma AloneMeans(s: string, cmd: Cmd, items: seq<Item>)
    ensures PipelineMeans(s, cmd, Alone(items)) <==> Runs(s, cmd, items)
    ensures LineMeans(s, cmd, Job(Alone(items), [])) <==> Runs(s, cmd, items)
  {
    assert StageMeans(s, cmd, Simple("", items)) <==> Runs(s, cmd, items);
    assert BackMeans(s, cmd, Alone(items), 0) <==> PipelineMeans(s, cmd, Alone(items));
  }

  /** a | b for simple commands a and b. */
  lemma BarCommands(a: seq<Item>, b: seq<Item>) returns (cmd: Cmd)
    requires Proper(a) && Proper(b)
    ensures var s := PrintItems(a) + "|" + PrintItems(b);
            ParseCmd(s) == Ok(cmd, |s|) && cmd.Pipe? && Runs(s, cmd.left, a) && Runs(s, cmd.right, b)
  {
    hide PrintItems, ItemsOk, Args, Files, SimpleMeans, ParseCmd;
    AlonePrints(a);
    AlonePrints(b);
    var pipe := Bar(Simple("", a), Alone(b));
    var t, s := Job(pipe, []), PrintItems(a) + "|" + PrintItems(b);
    assert PrintStage(Simple("", a)) == PrintItems(a) && StageOk(Simple("", a));
    assert PrintPipeline(pipe) == s && PrintLine(t) == s + "" == s;
    assert PipelineOk(pipe);
    cmd := CommandParses(t);
    assert BackMeans(s, cmd, pipe, 0) && PipelineMeans(s, cmd, pipe) && StageMeans(s, cmd.left, Simple("", a));
    AloneMeans(s, cmd.right, b);
  }

  /** a ; b for simple commands a and b. */
  lemma SemiCommands(a: seq<Item>, b: seq<Item>) returns (cmd: Cmd)
    requires Proper(a) && Proper(b)
    ensures var s := PrintItems(a) + ";" + PrintItems(b);
            ParseCmd(s) == Ok(cmd, |s|) && cmd.List? && Runs(s, cmd.left, a) && Runs(s, cmd.right, b)
  {
    hide PrintItems, ItemsOk, Args, Files, SimpleMeans, ParseCmd;
    AlonePrints(a);
    AlonePrints(b);
    var t, s := Semi(Alone(a), [], Job(Alone(b), [])), PrintItems(a) + ";" + PrintItems(b);
    assert PrintLine(t) == PrintItems(a) + "" + ";" + PrintItems(b) == s;
    cmd := CommandParses(t);
    assert BackMeans(s, cmd.left, Alone(a), 0);
    AloneMeans(s, cmd.left, a);
    AloneMeans(s, cmd.right, b);
  }

  /** a & for a simple command a. */
  lemma BackCommand(a: seq<Item>) returns (cmd: Cmd)
    requires Proper(a)
    ensures var s := PrintItems(a) + "&"; ParseCmd(s) == Ok(cmd, |s|) && cmd.Back? && Runs(s, cmd.cmd, a)
  {
    hide PrintItems, ItemsOk, Args, Files, SimpleMeans, ParseCmd;
    AlonePrints(a);
    var t, s := Job(Alone(a), [""]), PrintItems(a) + "&";
    assert PrintBacks([""]) == "&" + "" + "" == "&";
    assert PrintLine(t) == s;
    cmd := CommandParses(t);
    assert BackMeans(s, cmd, Alone(a), 1) && BackMeans(s, cmd.cmd, Alone(a), 0);
    AloneMeans(s, cmd.cmd, a);
  }

  /** a | b ; c is the list of the pipe a | b and of c. */
  lemma BarThenSemi(a: seq<Item>, b: seq<Item>, c: seq<Item>) returns (cmd: Cmd)
    requires Proper(a) && Proper(b) && Proper(c)
    ensures var s := PrintItems(a) + "|" + PrintItems(b) + ";" + PrintItems(c);
            && ParseCmd(s) == Ok(cmd, |s|) && cmd.List? && cmd.left.Pipe?
            && Runs(s, cmd.left.left, a) && Runs(s, cmd.left.right, b) && Runs(s, cmd.right, c)
  {
    hide PrintItems, ItemsOk, Args, Files, SimpleMeans, ParseCmd;
    AlonePrints(a);
    AlonePrints(b);
    AlonePrints(c);
    var pipe, ab := Bar(Simple("", a), Alone(b)), PrintItems(a) + "|" + PrintItems(b);
    var t, s := Semi(pipe, [], Job(Alone(c), [])), ab + ";" + PrintItems(c);
    assert PrintStage(Simple("", a)) == PrintItems(a) && StageOk(Simple("", a));
    assert PrintPipeline(pipe) == ab && PrintLine(t) == ab + "" + ";" + PrintItems(c) == s;
    assert PipelineOk(pipe);
    cmd := CommandParses(t);
    assert BackMeans(s, cmd.left, pipe, 0) && PipelineMeans(s, cmd.left, pipe);
    assert StageMeans(s, cmd.left.left, Simple("", a));
    AloneMeans(s, cmd.left.right, b);
    AloneMeans(s, cmd.right, c);
  }

  /** a & b is refused: behind '&' only '&', ';' or the end may come. */
  lemma NothingBehindBack(a: seq<Item>, b: seq<Item>)
    requires Proper(a) && Proper(b) && b != []
    ensures ParseCmd(PrintItems(a) + "&" + PrintItems(b)) == Panic
  {
    hide PrintItems, ItemsOk, Args, Files, SimpleMeans, ParseExec, SkipSpace, Sees, Items;
    var s, m := PrintItems(a) + "&" + PrintItems(b), |PrintItems(a)|;
    assert s[0..0 + |s|] == s;
    TwoBlocksText(s, 0, PrintItems(a), "&", PrintItems(b));
    var cmd := SimpleParses(s, 0, a);
    PipeEnds(s, 0, cmd, m);
    ItemsText(s, m + 1, b);
    ItemsHead(s, m + 1, m + 1 + |PrintItems(b)|, b);
    HeadStart(s, m + 1, b[0]);
    BackAt(s, cmd, m);
    TailStopsHere(s, Back(cmd), m + 1);
  }

  lemma TailStopsHere(s: string, cmd: Cmd, p: nat)
    requires p < |s| && (IsWordChar(s[p]) || s[p] == '<' || s[p] == '>')
    ensures SkipSpace(s, p) == p && LineTail(s, cmd, p) == Ok(cmd, p)
  {
    SeesHere(s, p);
  }
}
